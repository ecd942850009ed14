/** The files two executions wrote beyond the declared ones: engine/pipeline.py 471-546 and 773-887.
    Images of INDEXED and RELATIVE files are compared by their records, all other files byte by byte. */
module GeneratedFiles {
  import opened Bytes
  import opened Options
  import opened Ordering
  import opened Comparators
  import opened CanonicalRecords
  import opened BtreeImage
  import opened RelativeImage
  import opened EmulatedFiles
  import opened Pipeline

  datatype Organization = INDEXED | RELATIVE

  /** The base names the COBOL source assigns to INDEXED and to RELATIVE files. */
  datatype Keyed = Keyed(indexed: set<string>, relative: set<string>)

  /** `name.rsplit("/", 1)[-1]`. */
  function BaseName(name: string): string { if '/' in name then BaseName(name[1..]) else name }

  /** A member of `_emulated_file_image_names`. */
  predicate Emulated(k: Keyed, name: string) {
    var base := BaseName(name);
    base in k.indexed + k.relative || exists f :: f in k.indexed + k.relative && f + "." <= base
  }

  /** The one reader whose names contain the file, if exactly one does. */
  function ReaderOf(k: Keyed, name: string): Option<Organization> {
    var base := BaseName(name);
    if base in k.indexed && base !in k.relative then Some(INDEXED)
    else if base in k.relative && base !in k.indexed then Some(RELATIVE)
    else None
  }

  function Image(name: string, org: Organization): string { name + if org == INDEXED then ".idx" else ".rel" }

  lemma {:induction false} BaseNameOfImage(name: string, org: Organization)
    ensures BaseName(Image(name, org)) == Image(BaseName(name), org)
    decreases |name|
  {
    var image := Image(name, org);
    if '/' in name {
      assert image[1..] == Image(name[1..], org);
      BaseNameOfImage(name[1..], org);
    } else {
      assert forall i :: |name| <= i < |image| ==> image[i] != '/';
    }
  }

  lemma ImageIsEmulated(k: Keyed, name: string)
    requires ReaderOf(k, name).Some?
    ensures Emulated(k, name) && Emulated(k, Image(name, ReaderOf(k, name).value))
  {
    BaseNameOfImage(name, ReaderOf(k, name).value);
    assert BaseName(name) in k.indexed + k.relative
      && BaseName(name) + "." <= Image(BaseName(name), ReaderOf(k, name).value);
  }

  // ---- pairs of images ----

  /** The slots `gnucobol_relative_records` reads. */
  ghost predicate SlotsHeld(image: Bytes, slots: seq<Slot>) {
    if image == [] then slots == []
    else exists length: nat :: OnlyFit(image, length) && slots == LiveSlots(image, 8 + length, 1)
  }

  ghost predicate Decodes(org: Organization, oracle: Bytes, candidate: Bytes) {
    match org
    case INDEXED => (exists r :: Holds(oracle, r)) && exists r :: IndexHolds(candidate, r)
    case RELATIVE => (exists s :: SlotsHeld(oracle, s)) && exists s :: RelativeHolds(candidate, s)
  }

  /** A reader raises an exception that is no `UnreadableImage`: the oracle's on a malformed B-tree, or
      the candidate's, which is asked only if the oracle's image was read, on a file that is not UTF-8 or
      has a numeral that `int` refuses. */
  ghost predicate PairRaises(org: Organization, oracle: Bytes, candidate: Bytes) {
    match org
    case INDEXED => Bursts(oracle) || ((exists r :: Holds(oracle, r)) && IndexRaises(candidate))
    case RELATIVE => (exists s :: SlotsHeld(oracle, s)) && RelativeRaises(candidate)
  }

  /** Both images hold the same records: in key order, or under the same record numbers. */
  ghost predicate SameRecords(org: Organization, oracle: Bytes, candidate: Bytes) {
    match org
    case INDEXED => exists r :: Holds(oracle, r) && IndexHolds(candidate, r)
    case RELATIVE => exists s :: SlotsHeld(oracle, s) && RelativeHolds(candidate, s)
  }

  /** The text an oracle's image is compared by: that of the records it holds. */
  ghost predicate OracleText(org: Organization, image: Bytes, text: Bytes) {
    match org
    case INDEXED => exists r :: Holds(image, r) && text == Canonical(r)
    case RELATIVE => exists s :: SlotsHeld(image, s) && text == CanonicalRelative(s)
  }

  ghost predicate CandidateText(org: Organization, image: Bytes, text: Bytes) {
    match org
    case INDEXED => exists r :: IndexHolds(image, r) && text == Canonical(r)
    case RELATIVE => exists s :: RelativeHolds(image, s) && text == CanonicalRelative(s)
  }

  method ReadSlots(image: Bytes) returns (r: Outcome<seq<Slot>>)
    ensures forall s :: r == Ok(s) <==> SlotsHeld(image, s)
    ensures r != Raised
  {
    hide OnlyFit, LiveSlots;
    r := GnucobolRelativeRecords(image);
  }

  /** The two readers of an organization, then the two canonical texts. */
  method ReadPair(org: Organization, oracle: Bytes, candidate: Bytes) returns (r: Outcome<(Bytes, Bytes)>)
    ensures r.Ok? <==> Decodes(org, oracle, candidate)
    ensures r == Raised <==> PairRaises(org, oracle, candidate)
    ensures r.Ok? ==> (r.value.0 == r.value.1 <==> SameRecords(org, oracle, candidate))
    ensures r.Ok? ==> OracleText(org, oracle, r.value.0) && CandidateText(org, candidate, r.value.1)
  {
    hide Holds, Bursts, IndexHolds, SlotsHeld, RelativeHolds, Canonical, CanonicalRelative,
      IndexRaises, RelativeRaises;
    if org == INDEXED {
      var o := BdbBtreeRecords(oracle);
      if !o.Ok? { return o.PropagateFailure(); }
      assert Holds(oracle, o.value);
      var c := EmulatedIndexRecords(candidate);
      if !c.Ok? { return c.PropagateFailure(); }
      assert IndexHolds(candidate, c.value);
      if Canonical(o.value) == Canonical(c.value) { CanonicalInjective(o.value, c.value); }
      return Ok((Canonical(o.value), Canonical(c.value)));
    } else {
      var o := ReadSlots(oracle);
      if !o.Ok? { return o.PropagateFailure(); }
      assert SlotsHeld(oracle, o.value);
      var c := EmulatedRelativeRecords(candidate);
      if !c.Ok? { return c.PropagateFailure(); }
      assert RelativeHolds(candidate, c.value);
      if CanonicalRelative(o.value) == CanonicalRelative(c.value) { CanonicalRelativeInjective(o.value, c.value); }
      return Ok((CanonicalRelative(o.value), CanonicalRelative(c.value)));
    }
  }

  /** Each image is on its own side only. */
  predicate OnOwnSides(k: Keyed, name: string, o: Execution, c: Execution) {
    ReaderOf(k, name).Some? &&
    var image := Image(name, ReaderOf(k, name).value);
    name in o.files && name !in c.files && image in c.files && image !in o.files
  }

  /** The file is compared by its records. */
  ghost predicate RecordFile(k: Keyed, name: string, o: Execution, c: Execution) {
    && OnOwnSides(k, name, o, c)
    && Decodes(ReaderOf(k, name).value, o.files[name], c.files[Image(name, ReaderOf(k, name).value)])
  }

  ghost predicate RecordsAgree(k: Keyed, name: string, o: Execution, c: Execution) {
    && OnOwnSides(k, name, o, c)
    && SameRecords(ReaderOf(k, name).value, o.files[name], c.files[Image(name, ReaderOf(k, name).value)])
  }

  /** The file ends the pipeline with a reader's exception. */
  ghost predicate RaisingFile(k: Keyed, name: string, o: Execution, c: Execution) {
    && OnOwnSides(k, name, o, c)
    && PairRaises(ReaderOf(k, name).value, o.files[name], c.files[Image(name, ReaderOf(k, name).value)])
  }

  /** `name` is the oracle's or the candidate's image of the record file `base`. */
  predicate ImageOf(k: Keyed, base: string, name: string) {
    name == base || (ReaderOf(k, base).Some? && name == Image(base, ReaderOf(k, base).value))
  }

  // ---- the same, from directory and base name ----

  /** A directory with its slash, or none. */
  predicate IsDirectory(dir: string) { dir == "" || dir[|dir| - 1] == '/' }

  lemma {:induction false} BaseNameIs(dir: string, base: string)
    requires IsDirectory(dir) && '/' !in base
    ensures BaseName(dir + base) == base
    decreases |dir|
  {
    if dir == "" {
      assert dir + base == base;
    } else {
      assert (dir + base)[|dir| - 1] == '/' && (dir + base)[1..] == dir[1..] + base;
      BaseNameIs(dir[1..], base);
    }
  }

  /** The file is an image of a keyed file: the file itself, or its name with an extension. */
  lemma EmulatedExactly(k: Keyed, dir: string, base: string)
    requires IsDirectory(dir) && '/' !in base
    ensures Emulated(k, dir + base) <==>
      exists f :: f in k.indexed + k.relative && (base == f || (|base| > |f| && base[..|f|] == f && base[|f|] == '.'))
  {
    BaseNameIs(dir, base);
    forall f
      ensures f + "." <= base <==> |base| > |f| && base[..|f|] == f && base[|f|] == '.'
    {
      if |base| > |f| { assert base[..|f| + 1] == base[..|f|] + [base[|f|]]; }
      if f + "." <= base { assert base[..|f|] == (f + ".")[..|f|] && base[|f|] == (f + ".")[|f|]; }
    }
  }

  predicate OnlyIndexed(k: Keyed, base: string) { base in k.indexed && base !in k.relative }

  predicate OnlyRelative(k: Keyed, base: string) { base in k.relative && base !in k.indexed }

  /** The oracle alone has the file, the candidate alone the image of this name. */
  predicate Beside(name: string, image: string, o: Execution, c: Execution) {
    name in o.files && name !in c.files && image in c.files && image !in o.files
  }

  lemma ReaderIs(k: Keyed, dir: string, base: string)
    requires IsDirectory(dir) && '/' !in base
    ensures ReaderOf(k, dir + base) ==
      if OnlyIndexed(k, base) then Some(INDEXED) else if OnlyRelative(k, base) then Some(RELATIVE) else None
  {
    BaseNameIs(dir, base);
  }

  /** The records of a file agree exactly when it is of one organization, each side wrote its own image
      only, and both hold the same: an INDEXED file beside `.idx`, a RELATIVE one beside `.rel`. */
  lemma AgreementExactly(k: Keyed, dir: string, base: string, o: Execution, c: Execution)
    requires IsDirectory(dir) && '/' !in base
    ensures var name := dir + base; RecordsAgree(k, name, o, c) <==>
      || (OnlyIndexed(k, base) && Beside(name, name + ".idx", o, c)
          && exists r :: Holds(o.files[name], r) && IndexHolds(c.files[name + ".idx"], r))
      || (OnlyRelative(k, base) && Beside(name, name + ".rel", o, c)
          && exists s :: SlotsHeld(o.files[name], s) && RelativeHolds(c.files[name + ".rel"], s))
    ensures forall f :: ImageOf(k, dir + base, f) <==>
      || f == dir + base
      || (OnlyIndexed(k, base) && f == dir + base + ".idx") || (OnlyRelative(k, base) && f == dir + base + ".rel")
  {
    hide Holds, IndexHolds, SlotsHeld, RelativeHolds, ReaderOf;
    ReaderIs(k, dir, base);
  }

  /** A reader's exception ends the pipeline exactly when such a file has a malformed oracle image, or a
      readable one beside a candidate image that raises. */
  lemma RaisingExactly(k: Keyed, dir: string, base: string, o: Execution, c: Execution)
    requires IsDirectory(dir) && '/' !in base
    ensures var name := dir + base; RaisingFile(k, name, o, c) <==>
      || (OnlyIndexed(k, base) && Beside(name, name + ".idx", o, c)
          && (Bursts(o.files[name])
              || ((exists r :: Holds(o.files[name], r)) && IndexRaises(c.files[name + ".idx"]))))
      || (OnlyRelative(k, base) && Beside(name, name + ".rel", o, c)
          && (exists s :: SlotsHeld(o.files[name], s)) && RelativeRaises(c.files[name + ".rel"]))
  {
    hide Holds, IndexHolds, SlotsHeld, RelativeHolds, ReaderOf, Bursts, IndexRaises, RelativeRaises;
    ReaderIs(k, dir, base);
  }

  // ---- comparisons of generated files ----

  const GENERATED: string := "generated-file:"
  const RECORDS: string := "#records"

  function Generated(path: string, missing: OnMissing): Declared {
    Declared(GENERATED + path, TEXT_FILE, "text-file-exact", Some(path), [], SEQUENTIAL, missing, None)
  }

  function CaptureGenerated(a: Declared, content: Option<Bytes>, execution: string, role: string): (r: Captured)
    requires a.artifactType == TEXT_FILE
    ensures Capture(a, content, execution, role) == Done(r) && r.content == content
  {
    Capture(a, content, execution, role).Extract()
  }

  /** The comparison of a file the workload does not declare. */
  predicate Derived(x: Compared) { x.declared.artifactType == TEXT_FILE && GENERATED <= x.declared.logicalName }

  /** Bytes as they are: nothing counted, normalized or reordered. */
  predicate TellsPlainly(x: Compared) {
    x.oracle.recordCount == x.candidate.recordCount == None && x.normalization == [] && x.order == SEQUENTIAL
  }

  /** Byte-exact comparison; a file of one side only is a MISMATCH. */
  function CompareGenerated(path: string, oc: Option<Bytes>, cc: Option<Bytes>, o: Execution,
      c: Execution): (r: Compared)
    ensures Bound(r, o, c) && Derived(r) && r.declared.logicalName == GENERATED + path
    ensures r.oracle.content == oc && r.candidate.content == cc && TellsPlainly(r)
    ensures r.result == MATCH <==> oc.Some? && oc == cc
    ensures r.result != INCONCLUSIVE && r.policy == if oc.Some? && cc.Some? then "" else "FAILED"
  {
    var a := Generated(path, FAILED);
    var text := CompareText(oc, cc, [], SEQUENTIAL, FAILED);
    assert text.Some?;
    Concluded(a, CaptureGenerated(a, oc, o.id, "ORACLE"), CaptureGenerated(a, cc, c.id, "CANDIDATE"), text.value)
  }

  /** `_inconclusive_comparison`: an image that was not compared by records. */
  function NotCompared(path: string, oc: Option<Bytes>, cc: Option<Bytes>, o: Execution, c: Execution): (r: Compared)
    ensures Bound(r, o, c) && Derived(r) && r.declared.logicalName == GENERATED + path && r.result == INCONCLUSIVE
    ensures r.oracle.content == oc && r.candidate.content == cc && TellsPlainly(r) && r.policy == ""
  {
    var a := Generated(path, UNAVAILABLE);
    Compared(a, CaptureGenerated(a, oc, o.id, "ORACLE"), CaptureGenerated(a, cc, c.id, "CANDIDATE"), INCONCLUSIVE,
      [ImageNotCompared], [], SEQUENTIAL, "")
  }

  ghost predicate AllMatch(xs: seq<Compared>) { forall x :: x in xs ==> x.result == MATCH }

  function Names(xs: seq<Compared>): seq<string> { seq(|xs|, i requires 0 <= i < |xs| => xs[i].declared.logicalName) }

  function FileOf(e: Execution, name: string): Option<Bytes> { if name in e.files then Some(e.files[name]) else None }

  /** The comparison of a file by its bytes: both sides as the executions wrote them, MISMATCH unless they
      are the same, INCONCLUSIVE for the image of an INDEXED or RELATIVE file. */
  ghost predicate TellsFile(x: Compared, k: Keyed, f: string, o: Execution, c: Execution) {
    && x.declared.logicalName == "generated-file:" + f && x.declared.artifactType == TEXT_FILE && TellsPlainly(x)
    && x.oracle.content == (if f in o.files then Some(o.files[f]) else None)
    && x.candidate.content == (if f in c.files then Some(c.files[f]) else None)
    && x.result == (if Emulated(k, f) then INCONCLUSIVE else if SameFile(f, o, c) then MATCH else MISMATCH)
    && x.policy == (if Emulated(k, f) || (f in o.files && f in c.files) then "" else "FAILED")
  }

  /** The comparison of a file by its records: the texts of what both images hold. */
  ghost predicate TellsRecords(x: Compared, k: Keyed, b: string, o: Execution, c: Execution) {
    && OnOwnSides(k, b, o, c) && x.declared.logicalName == "generated-file:" + (b + "#records")
    && x.declared.artifactType == TEXT_FILE && TellsPlainly(x) && x.policy == ""
    && x.oracle.content.Some? && OracleText(ReaderOf(k, b).value, o.files[b], x.oracle.content.value)
    && x.candidate.content.Some?
    && CandidateText(ReaderOf(k, b).value, c.files[Image(b, ReaderOf(k, b).value)], x.candidate.content.value)
    && x.result == (if RecordsAgree(k, b, o, c) then MATCH else MISMATCH)
  }

  /** Each record file `done` has its comparison, and there are no others. */
  ghost predicate RecordsTold(xs: seq<Compared>, done: seq<string>, k: Keyed, o: Execution, c: Execution) {
    && (forall b :: b in done && RecordFile(k, b, o, c) ==> exists x :: x in xs && TellsRecords(x, k, b, o, c))
    && forall x :: x in xs ==> exists b :: b in done && RecordFile(k, b, o, c) && TellsRecords(x, k, b, o, c)
  }

  lemma NothingTold(k: Keyed, o: Execution, c: Execution)
    ensures RecordsTold([], [], k, o, c)
    ensures forall handled :: FilesTold([], [], handled, k, o, c)
  {
  }

  lemma RecordsToldSkip(xs: seq<Compared>, done: seq<string>, name: string, k: Keyed, o: Execution, c: Execution)
    requires RecordsTold(xs, done, k, o, c) && !RecordFile(k, name, o, c)
    ensures RecordsTold(xs, done + [name], k, o, c)
  {
    hide RecordFile, TellsRecords;
    assert forall b :: b in done + [name] <==> b in done || b == name;
    forall x | x in xs
      ensures exists b :: b in done + [name] && RecordFile(k, b, o, c) && TellsRecords(x, k, b, o, c)
    {
      var b :| b in done && RecordFile(k, b, o, c) && TellsRecords(x, k, b, o, c);
      assert b in done + [name];
    }
  }

  lemma RecordsToldStep(xs: seq<Compared>, done: seq<string>, name: string, x: Compared, k: Keyed, o: Execution,
      c: Execution)
    requires RecordsTold(xs, done, k, o, c) && RecordFile(k, name, o, c) && TellsRecords(x, k, name, o, c)
    ensures RecordsTold(xs + [x], done + [name], k, o, c)
  {
    hide RecordFile, TellsRecords;
    var more, all := done + [name], xs + [x];
    OneMore(done, name);
    OneMore(xs, x);
    forall b | b in more && RecordFile(k, b, o, c) ensures exists y :: y in all && TellsRecords(y, k, b, o, c) {
      if b == name { assert x in all; }
    }
    forall y | y in all ensures exists b :: b in more && RecordFile(k, b, o, c) && TellsRecords(y, k, b, o, c) {
      if y == x { assert name in more; }
    }
  }

  lemma OneMore<T>(s: seq<T>, x: T)
    ensures forall y :: y in s + [x] <==> y in s || y == x
  {
  }

  predicate NothingMissing(xs: seq<Compared>) {
    MissingNames(xs, true) == MissingNames(xs, false) == {}
  }

  lemma NothingMissingAppend(xs: seq<Compared>, x: Compared)
    requires NothingMissing(xs) && x.oracle.content.Some? && x.candidate.content.Some?
    ensures NothingMissing(xs + [x])
  {
    forall oracle: bool ensures MissingNames(xs + [x], oracle) == MissingNames(xs, oracle) {
      MissingAppend(xs, [x], oracle);
      MissingOne(x, oracle);
    }
  }

  /** What `_compare_file_records` leaves behind after the files `done`. */
  ghost predicate RecordsCompared(xs: seq<Compared>, done: seq<string>, handled: set<string>, k: Keyed, o: Execution,
      c: Execution) {
    && (forall x :: x in xs ==> Bound(x, o, c) && Derived(x))
    && Handles(handled, done, k, o, c) && Matching(xs, done, k, o, c)
    && NothingMissing(xs) && NamedAfter(xs, done)
  }

  lemma RecordsSkip(xs: seq<Compared>, done: seq<string>, handled: set<string>, k: Keyed, o: Execution, c: Execution,
      name: string)
    requires RecordsCompared(xs, done, handled, k, o, c) && !RecordFile(k, name, o, c)
    ensures RecordsCompared(xs, done + [name], handled, k, o, c)
  {
    hide RecordFile, RecordsAgree, ImageOf, AllMatch, Derived, NothingMissing;
    var more := done + [name];
    forall f | f in handled ensures exists b :: b in more && RecordFile(k, b, o, c) && ImageOf(k, b, f) {
      var b :| b in done && RecordFile(k, b, o, c) && ImageOf(k, b, f);
      assert b in more;
    }
    forall n | n in Names(xs) ensures exists b :: b in more && n == GENERATED + (b + RECORDS) {
      var b :| b in done && n == GENERATED + (b + RECORDS);
      assert b in more;
    }
    forall b | b in done ensures b in more { }
  }

  lemma NothingCompared(k: Keyed, o: Execution, c: Execution)
    ensures RecordsCompared([], [], {}, k, o, c)
  {
  }

  lemma AllMatchAppend(xs: seq<Compared>, x: Compared)
    ensures AllMatch(xs + [x]) <==> AllMatch(xs) && x.result == MATCH
  {
    assert forall y :: y in xs + [x] <==> y in xs || y == x;
  }

  lemma NamesAppend(xs: seq<Compared>, x: Compared)
    ensures Names(xs + [x]) == Names(xs) + [x.declared.logicalName]
  {
  }

  lemma RecordNamesDiffer(a: string, b: string)
    requires GENERATED + (a + RECORDS) == GENERATED + (b + RECORDS)
    ensures a == b
  {
    var x, y := GENERATED + (a + RECORDS), GENERATED + (b + RECORDS);
    assert x[|GENERATED|..] == a + RECORDS && y[|GENERATED|..] == b + RECORDS;
    assert (a + RECORDS)[..|a|] == a && (b + RECORDS)[..|b|] == b;
  }

  /** The images of the record files `done`. */
  ghost predicate Handles(handled: set<string>, done: seq<string>, k: Keyed, o: Execution, c: Execution) {
    forall f :: f in handled <==> exists b :: b in done && RecordFile(k, b, o, c) && ImageOf(k, b, f)
  }

  lemma HandlesStep(handled: set<string>, done: seq<string>, k: Keyed, o: Execution, c: Execution, name: string)
    requires Handles(handled, done, k, o, c) && RecordFile(k, name, o, c) && ReaderOf(k, name).Some?
    ensures Handles(handled + {name, Image(name, ReaderOf(k, name).value)}, done + [name], k, o, c)
  {
    hide RecordFile;
    var more, taken := done + [name], handled + {name, Image(name, ReaderOf(k, name).value)};
    assert forall b :: b in more <==> b in done || b == name;
    forall f ensures f in taken <==> exists b :: b in more && RecordFile(k, b, o, c) && ImageOf(k, b, f) {
      if f in taken - handled { assert name in more && ImageOf(k, name, f); }
      if f in handled {
        var b :| b in done && RecordFile(k, b, o, c) && ImageOf(k, b, f);
        assert b in more;
      }
    }
  }

  /** The comparisons are named after different record files `done`. */
  ghost predicate NamedAfter(xs: seq<Compared>, done: seq<string>) {
    && NoDuplicates(Names(xs))
    && forall n :: n in Names(xs) ==> exists b :: b in done && n == GENERATED + (b + RECORDS)
  }

  lemma NamedStep(xs: seq<Compared>, done: seq<string>, name: string, x: Compared)
    requires NamedAfter(xs, done) && name !in done && x.declared.logicalName == GENERATED + (name + RECORDS)
    ensures NamedAfter(xs + [x], done + [name])
  {
    NamesAppend(xs, x);
    var more := done + [name];
    forall n | n in Names(xs)
      ensures n != x.declared.logicalName && exists b :: b in more && n == GENERATED + (b + RECORDS)
    {
      var b :| b in done && n == GENERATED + (b + RECORDS);
      if n == x.declared.logicalName { RecordNamesDiffer(b, name); }
      assert b in more;
    }
    forall n | n in Names(xs + [x]) ensures exists b :: b in more && n == GENERATED + (b + RECORDS) {
      if n !in Names(xs) { assert name in more && n == GENERATED + (name + RECORDS); }
    }
    forall i | 0 <= i < |xs| ensures Names(xs)[i] != x.declared.logicalName { assert Names(xs)[i] in Names(xs); }
  }

  /** All comparisons match exactly when the records of all files `done` agree. */
  ghost predicate Matching(xs: seq<Compared>, done: seq<string>, k: Keyed, o: Execution, c: Execution) {
    AllMatch(xs) <==> forall b :: b in done && RecordFile(k, b, o, c) ==> RecordsAgree(k, b, o, c)
  }

  lemma MatchStep(xs: seq<Compared>, done: seq<string>, k: Keyed, o: Execution, c: Execution, name: string, x: Compared)
    requires Matching(xs, done, k, o, c) && RecordFile(k, name, o, c)
    requires x.result == MATCH <==> RecordsAgree(k, name, o, c)
    ensures Matching(xs + [x], done + [name], k, o, c)
  {
    hide RecordFile, RecordsAgree, AllMatch;
    AllMatchAppend(xs, x);
    assert forall b :: b in done + [name] <==> b in done || b == name;
  }

  lemma RecordsStep(xs: seq<Compared>, done: seq<string>, handled: set<string>, k: Keyed, o: Execution, c: Execution,
      name: string, x: Compared)
    requires RecordsCompared(xs, done, handled, k, o, c) && name !in done && RecordFile(k, name, o, c)
      && ReaderOf(k, name).Some?
    requires Bound(x, o, c) && Derived(x) && x.declared.logicalName == GENERATED + (name + RECORDS)
    requires x.result == MATCH <==> RecordsAgree(k, name, o, c)
    requires x.oracle.content.Some? && x.candidate.content.Some?
    ensures RecordsCompared(xs + [x], done + [name], handled + {name, Image(name, ReaderOf(k, name).value)}, k, o, c)
  {
    HandlesStep(handled, done, k, o, c, name);
    NamedStep(xs, done, name, x);
    NothingMissingAppend(xs, x);
    MatchStep(xs, done, k, o, c, name, x);
    hide RecordFile, Matching, Bound, Derived, NothingMissing, Handles, NamedAfter, ReaderOf, Image, RecordsAgree;
    assert forall y :: y in xs + [x] ==> y in xs || y == x;
  }

  /** `_compare_file_records`. */
  method CompareFileRecords(k: Keyed, emulated: set<string>, o: Execution, c: Execution)
    returns (r: Attempt<seq<Compared>>, handled: set<string>, ghost done: seq<string>)
    ensures forall n :: n in done <==> n in emulated
    ensures r.Failed? <==> exists n :: n in emulated && RaisingFile(k, n, o, c)
    ensures r.Failed? ==> r.failure == ReaderRaised
    ensures r.Done? ==> RecordsCompared(r.value, done, handled, k, o, c) && RecordsTold(r.value, done, k, o, c)
  {
    StringLeIsTotal();
    hide Decodes, SameRecords, PairRaises, Bound, Derived, StringLe, TotalOrder, RecordsCompared, ReaderOf, Image,
      RecordsTold, OracleText, CandidateText;
    NothingCompared(k, o, c);
    assert RecordsTold([], [], k, o, c) by { NothingTold(k, o, c); }
    var names := SortSet(StringLe, emulated);
    done := names;
    var xs: seq<Compared> := [];
    handled := {};
    for i := 0 to |names|
      invariant RecordsCompared(xs, names[..i], handled, k, o, c) && RecordsTold(xs, names[..i], k, o, c)
      invariant forall j :: 0 <= j < i ==> !RaisingFile(k, names[j], o, c)
    {
      assert names[..i + 1] == names[..i] + [names[i]];
      var name := names[i];
      if !OnOwnSides(k, name, o, c) {
        RecordsSkip(xs, names[..i], handled, k, o, c, name);
        RecordsToldSkip(xs, names[..i], name, k, o, c);
        continue;
      }
      var image := Image(name, ReaderOf(k, name).value);
      var pair := ReadPair(ReaderOf(k, name).value, o.files[name], c.files[image]);
      if pair.Unreadable? {
        RecordsSkip(xs, names[..i], handled, k, o, c, name);
        RecordsToldSkip(xs, names[..i], name, k, o, c);
        continue;
      }
      if pair.Raised? {
        assert name in emulated && RaisingFile(k, name, o, c);
        return Failed(ReaderRaised), handled, done;
      }
      var x := CompareGenerated(name + RECORDS, Some(pair.value.0), Some(pair.value.1), o, c);
      RecordsStep(xs, names[..i], handled, k, o, c, name, x);
      RecordsToldStep(xs, names[..i], name, x, k, o, c);
      xs := xs + [x];
      handled := handled + {name, image};
    }
    assert names[..|names|] == names;
    return Done(xs), handled, done;
  }

  // ---- all files beyond the declared ones ----

  /** `declared_paths`: every non-empty output path, whatever the type of the artifact naming it. */
  function DeclaredPaths(declared: seq<Declared>): (r: set<string>)
    ensures forall p :: p in r <==> p != "" && exists a :: a in declared && a.outputPath == Some(p)
  {
    set a | a in declared && a.outputPath.Some? && a.outputPath.value != "" :: a.outputPath.value
  }

  function Undeclared(declared: seq<Declared>, o: Execution, c: Execution): set<string> {
    (o.files.Keys + c.files.Keys) - DeclaredPaths(declared)
  }

  ghost predicate SameFile(f: string, o: Execution, c: Execution) {
    f in o.files && f in c.files && o.files[f] == c.files[f]
  }

  /** Both executions wrote the file with the same bytes, or it is an image of an undeclared file whose
      records are the same on both sides. */
  ghost predicate FileAlike(k: Keyed, undeclared: set<string>, f: string, o: Execution, c: Execution) {
    || (SameFile(f, o, c) && !Emulated(k, f))
    || exists b :: b in undeclared && ImageOf(k, b, f) && RecordsAgree(k, b, o, c)
  }

  function FilesOn(oracle: bool, o: Execution, c: Execution): map<string, Bytes> {
    if oracle then o.files else c.files
  }

  /** The names of the comparisons of files, not compared by their records, that a side did not write. */
  ghost function LoneNames(k: Keyed, undeclared: set<string>, oracle: bool, o: Execution, c: Execution): set<string> {
    set f | f in undeclared && f !in FilesOn(oracle, o, c)
      && !exists b :: b in undeclared && RecordFile(k, b, o, c) && ImageOf(k, b, f) :: GENERATED + f
  }

  function NamesBeyond(done: seq<string>, handled: set<string>, oracle: bool, o: Execution, c: Execution): set<string> {
    set f | f in done && f !in handled && f !in FilesOn(oracle, o, c) :: GENERATED + f
  }

  /** Each file `done` that is not handled has its comparison, and there are no others. */
  ghost predicate FilesTold(xs: seq<Compared>, done: seq<string>, handled: set<string>, k: Keyed, o: Execution,
      c: Execution) {
    && (forall f :: f in done && f !in handled ==> exists x :: x in xs && TellsFile(x, k, f, o, c))
    && OnlyFiles(xs, done, handled, k, o, c)
  }

  lemma FilesToldSkip(xs: seq<Compared>, done: seq<string>, handled: set<string>, name: string, k: Keyed, o: Execution,
      c: Execution)
    requires FilesTold(xs, done, handled, k, o, c) && name in handled
    ensures FilesTold(xs, done + [name], handled, k, o, c)
  {
    hide TellsFile;
    assert forall f :: f in done + [name] <==> f in done || f == name;
    forall x | x in xs ensures exists f :: f in done + [name] && f !in handled && TellsFile(x, k, f, o, c) {
      var f :| f in done && f !in handled && TellsFile(x, k, f, o, c);
      assert f in done + [name];
    }
  }

  /** Every comparison is that of a file `done`. */
  ghost predicate OnlyFiles(xs: seq<Compared>, done: seq<string>, handled: set<string>, k: Keyed, o: Execution,
      c: Execution) {
    forall x :: x in xs ==> exists f :: f in done && f !in handled && TellsFile(x, k, f, o, c)
  }

  lemma OnlyFilesStep(xs: seq<Compared>, done: seq<string>, handled: set<string>, name: string, x: Compared, k: Keyed,
      o: Execution, c: Execution)
    requires OnlyFiles(xs, done, handled, k, o, c) && name !in handled && TellsFile(x, k, name, o, c)
    ensures OnlyFiles(xs + [x], done + [name], handled, k, o, c)
  {
    hide TellsFile;
    OneMore(done, name);
    assert name in done + [name];
  }

  lemma FilesToldStep(xs: seq<Compared>, done: seq<string>, handled: set<string>, name: string, x: Compared, k: Keyed,
      o: Execution, c: Execution)
    requires FilesTold(xs, done, handled, k, o, c) && name !in handled && TellsFile(x, k, name, o, c)
    ensures FilesTold(xs + [x], done + [name], handled, k, o, c)
  {
    hide TellsFile, OnlyFiles;
    OnlyFilesStep(xs, done, handled, name, x, k, o, c);
    OneMore(done, name);
    OneMore(xs, x);
  }

  /** What the last loop leaves behind after the files `done`. */
  ghost predicate FilesCompared(xs: seq<Compared>, done: seq<string>, handled: set<string>, k: Keyed, o: Execution,
      c: Execution) {
    && (forall x :: x in xs ==> Bound(x, o, c) && Derived(x))
    && (AllMatch(xs) <==> forall f :: f in done ==> f in handled || (SameFile(f, o, c) && !Emulated(k, f)))
    && NoDuplicates(Names(xs))
    && (forall oracle :: MissingNames(xs, oracle) == NamesBeyond(done, handled, oracle, o, c))
    && forall n :: n in Names(xs) ==> exists f :: f in done && n == GENERATED + f
  }

  lemma BeyondAppend(done: seq<string>, name: string, handled: set<string>, oracle: bool, o: Execution, c: Execution)
    requires name !in handled
    ensures NamesBeyond(done + [name], handled, oracle, o, c) == NamesBeyond(done, handled, oracle, o, c)
      + if name in FilesOn(oracle, o, c) then {} else {GENERATED + name}
  {
    assert forall f :: f in done + [name] <==> f in done || f == name;
  }

  lemma FilesSkip(xs: seq<Compared>, done: seq<string>, handled: set<string>, k: Keyed, o: Execution, c: Execution,
      name: string)
    requires FilesCompared(xs, done, handled, k, o, c) && name in handled
    ensures FilesCompared(xs, done + [name], handled, k, o, c)
  {
    hide SameFile, Emulated, AllMatch, Bound, Derived, MissingNames;
    var more := done + [name];
    assert forall f :: f in more <==> f in done || f == name;
    assert forall oracle: bool :: NamesBeyond(more, handled, oracle, o, c) == NamesBeyond(done, handled, oracle, o, c);
    forall n | n in Names(xs) ensures exists f :: f in more && n == GENERATED + f {
      var f :| f in done && n == GENERATED + f;
      assert f in more;
    }
  }

  lemma FilesStep(xs: seq<Compared>, done: seq<string>, handled: set<string>, k: Keyed, o: Execution, c: Execution,
      name: string, x: Compared)
    requires FilesCompared(xs, done, handled, k, o, c) && name !in done && name !in handled
    requires Bound(x, o, c) && Derived(x) && x.declared.logicalName == GENERATED + name
    requires x.result == MATCH <==> SameFile(name, o, c) && !Emulated(k, name)
    requires x.oracle.content == FileOf(o, name) && x.candidate.content == FileOf(c, name)
    ensures FilesCompared(xs + [x], done + [name], handled, k, o, c)
  {
    AllMatchAppend(xs, x);
    NamesAppend(xs, x);
    forall oracle: bool
      ensures MissingNames(xs + [x], oracle) == NamesBeyond(done + [name], handled, oracle, o, c)
    {
      MissingAppend(xs, [x], oracle);
      MissingOne(x, oracle);
      BeyondAppend(done, name, handled, oracle, o, c);
    }
    hide SameFile, Emulated, AllMatch, Bound, Derived, MissingNames, NamesBeyond;
    var more := done + [name];
    assert forall f :: f in more <==> f in done || f == name;
    forall n | n in Names(xs) ensures n != x.declared.logicalName && exists f :: f in more && n == GENERATED + f {
      var f :| f in done && n == GENERATED + f;
      assert n[|GENERATED|..] == f && x.declared.logicalName[|GENERATED|..] == name;
      assert f in more;
    }
    forall n | n in Names(xs + [x]) ensures exists f :: f in more && n == GENERATED + f {
      if n !in Names(xs) { assert name in more && n == GENERATED + name; }
    }
    forall i | 0 <= i < |xs| ensures Names(xs)[i] != x.declared.logicalName { assert Names(xs)[i] in Names(xs); }
    assert NoDuplicates(Names(xs + [x]));
  }

  /** The loop over the sorted undeclared files. */
  method CompareFiles(k: Keyed, undeclared: set<string>, handled: set<string>, o: Execution, c: Execution)
    returns (xs: seq<Compared>, ghost done: seq<string>)
    ensures forall n :: n in done <==> n in undeclared
    ensures FilesCompared(xs, done, handled, k, o, c) && FilesTold(xs, done, handled, k, o, c)
  {
    StringLeIsTotal();
    hide Bound, Derived, StringLe, TotalOrder, FilesCompared, Emulated, FilesTold;
    NoFileCompared(handled, k, o, c);
    NothingTold(k, o, c);
    var names := SortSet(StringLe, undeclared);
    done := names;
    xs := [];
    for i := 0 to |names|
      invariant FilesCompared(xs, names[..i], handled, k, o, c) && FilesTold(xs, names[..i], handled, k, o, c)
    {
      assert names[..i + 1] == names[..i] + [names[i]];
      var name := names[i];
      if name in handled {
        FilesSkip(xs, names[..i], handled, k, o, c, name);
        FilesToldSkip(xs, names[..i], handled, name, k, o, c);
        continue;
      }
      var x :=
        if Emulated(k, name) then NotCompared(name, FileOf(o, name), FileOf(c, name), o, c)
        else CompareGenerated(name, FileOf(o, name), FileOf(c, name), o, c);
      FilesStep(xs, names[..i], handled, k, o, c, name, x);
      FilesToldStep(xs, names[..i], handled, name, x, k, o, c);
      xs := xs + [x];
    }
    assert names[..|names|] == names;
  }

  lemma NoFileCompared(handled: set<string>, k: Keyed, o: Execution, c: Execution)
    ensures FilesCompared([], [], handled, k, o, c)
  {
  }

  /** No undeclared file has a name the record comparison of another could take. */
  predicate NamesClear(undeclared: set<string>) {
    forall f, b :: f in undeclared && b in undeclared ==> f != b + RECORDS
  }

  lemma ClearNames(undeclared: set<string>)
    ensures NamesClear(undeclared) <==> forall f, b :: f in undeclared && b in undeclared ==> f != b + "#records"
  {
  }

  lemma AgreeingDecodes(k: Keyed, b: string, o: Execution, c: Execution)
    requires RecordsAgree(k, b, o, c)
    ensures RecordFile(k, b, o, c) && Emulated(k, b) && Emulated(k, Image(b, ReaderOf(k, b).value))
  {
    hide Holds, IndexHolds, SlotsHeld, RelativeHolds;
    ImageIsEmulated(k, b);
  }

  /** Record files and other files together: nothing undeclared escapes comparison. */
  lemma FilesTogether(k: Keyed, undeclared: set<string>, records: seq<Compared>, files: seq<Compared>,
      emulated: seq<string>, all: seq<string>, handled: set<string>, o: Execution, c: Execution)
    requires forall n :: n in emulated <==> n in undeclared && Emulated(k, n)
    requires forall n :: n in all <==> n in undeclared
    requires RecordsCompared(records, emulated, handled, k, o, c) && FilesCompared(files, all, handled, k, o, c)
    ensures AllMatch(records) && AllMatch(files) <==> forall f :: f in undeclared ==> FileAlike(k, undeclared, f, o, c)
  {
    hide RecordFile, RecordsAgree, Emulated, SameFile, AllMatch, Bound, Derived, Names, NoDuplicates, Image, ReaderOf;
    if AllMatch(records) && AllMatch(files) {
      forall f | f in undeclared ensures FileAlike(k, undeclared, f, o, c) {
        assert f in all;
        if f in handled {
          var b :| b in emulated && RecordFile(k, b, o, c) && ImageOf(k, b, f);
          assert RecordsAgree(k, b, o, c);
        }
      }
    }
    if forall f :: f in undeclared ==> FileAlike(k, undeclared, f, o, c) {
      forall b | b in emulated && RecordFile(k, b, o, c) ensures RecordsAgree(k, b, o, c) {
        var d :| d in undeclared && ImageOf(k, d, b) && RecordsAgree(k, d, o, c);
        if d != b { ImageIsElsewhere(k, b, d, o, c); }
      }
      forall f | f in all ensures f in handled || (SameFile(f, o, c) && !Emulated(k, f)) {
        if !(SameFile(f, o, c) && !Emulated(k, f)) {
          var b :| b in undeclared && ImageOf(k, b, f) && RecordsAgree(k, b, o, c);
          AgreeingDecodes(k, b, o, c);
          assert b in emulated;
        }
      }
    }
  }

  /** An image the candidate wrote is no record file of the oracle. */
  lemma ImageIsElsewhere(k: Keyed, b: string, d: string, o: Execution, c: Execution)
    requires RecordFile(k, b, o, c) && RecordsAgree(k, d, o, c) && ImageOf(k, d, b)
    ensures b == d
  {
  }

  lemma DistinctTogether(undeclared: set<string>, records: seq<Compared>, files: seq<Compared>, emulated: seq<string>,
      all: seq<string>, handled: set<string>, k: Keyed, o: Execution, c: Execution)
    requires forall n :: n in emulated ==> n in undeclared
    requires forall n :: n in all ==> n in undeclared
    requires RecordsCompared(records, emulated, handled, k, o, c) && FilesCompared(files, all, handled, k, o, c)
      && NamesClear(undeclared)
    ensures NoDuplicates(Names(records + files)) && forall n :: n in Names(records + files) ==> GENERATED <= n
  {
    hide RecordFile, RecordsAgree, Emulated, SameFile, AllMatch, Bound, Derived, ImageOf;
    var m, n := Names(records), Names(files);
    assert Names(records + files) == m + n;
    forall i, j | 0 <= i < |m| && 0 <= j < |n| ensures m[i] != n[j] {
      assert m[i] in m && n[j] in n;
      var b :| b in emulated && m[i] == GENERATED + (b + RECORDS);
      var f :| f in all && n[j] == GENERATED + f;
      assert m[i][|GENERATED|..] == b + RECORDS && n[j][|GENERATED|..] == f;
    }
  }

  /** A record file accounts for the file. */
  ghost predicate Accounts(k: Keyed, undeclared: set<string>, f: string, o: Execution, c: Execution) {
    exists b :: b in undeclared && RecordFile(k, b, o, c) && ImageOf(k, b, f)
  }

  /** Each undeclared file has its comparison, by its bytes or by its records, and there are no others. */
  ghost predicate UndeclaredTold(xs: seq<Compared>, k: Keyed, undeclared: set<string>, o: Execution, c: Execution) {
    && (forall f :: f in undeclared && !Accounts(k, undeclared, f, o, c) ==>
          exists x :: x in xs && TellsFile(x, k, f, o, c))
    && (forall b :: b in undeclared && RecordFile(k, b, o, c) ==> exists x :: x in xs && TellsRecords(x, k, b, o, c))
    && forall x :: x in xs ==>
         || (exists f :: f in undeclared && !Accounts(k, undeclared, f, o, c) && TellsFile(x, k, f, o, c))
         || exists b :: b in undeclared && RecordFile(k, b, o, c) && TellsRecords(x, k, b, o, c)
  }

  lemma AllMatchTogether(xs: seq<Compared>, ys: seq<Compared>)
    ensures AllMatch(xs + ys) <==> AllMatch(xs) && AllMatch(ys)
  {
    assert forall x :: x in xs + ys <==> x in xs || x in ys;
  }

  lemma RecordsFacts(xs: seq<Compared>, done: seq<string>, handled: set<string>, k: Keyed, o: Execution, c: Execution)
    requires RecordsCompared(xs, done, handled, k, o, c)
    ensures Handles(handled, done, k, o, c) && forall x :: x in xs ==> Bound(x, o, c) && Derived(x)
    ensures forall oracle :: MissingNames(xs, oracle) == {}
  {
  }

  lemma FilesFacts(xs: seq<Compared>, done: seq<string>, handled: set<string>, k: Keyed, o: Execution, c: Execution)
    requires FilesCompared(xs, done, handled, k, o, c)
    ensures forall x :: x in xs ==> Bound(x, o, c) && Derived(x)
    ensures forall oracle :: MissingNames(xs, oracle) == NamesBeyond(done, handled, oracle, o, c)
  {
  }

  lemma HandledAreAccounted(k: Keyed, undeclared: set<string>, emulated: seq<string>, handled: set<string>,
      o: Execution, c: Execution)
    requires forall n :: n in emulated <==> n in undeclared && Emulated(k, n)
    requires Handles(handled, emulated, k, o, c)
    ensures forall b :: b in undeclared && RecordFile(k, b, o, c) ==> b in emulated
    ensures forall f :: f in undeclared ==> (f in handled <==> Accounts(k, undeclared, f, o, c))
  {
    hide RecordFile, Emulated, ImageOf;
    forall b | RecordFile(k, b, o, c) ensures Emulated(k, b) { RecordIsEmulated(k, b, o, c); }
    forall f | f in undeclared ensures f in handled <==> Accounts(k, undeclared, f, o, c) {
      if b :| b in undeclared && RecordFile(k, b, o, c) && ImageOf(k, b, f) { assert b in emulated; }
    }
  }

  lemma ToldTogether(k: Keyed, undeclared: set<string>, records: seq<Compared>, files: seq<Compared>,
      emulated: seq<string>, all: seq<string>, handled: set<string>, o: Execution, c: Execution)
    requires forall n :: n in emulated <==> n in undeclared && Emulated(k, n)
    requires forall n :: n in all <==> n in undeclared
    requires Handles(handled, emulated, k, o, c)
    requires RecordsTold(records, emulated, k, o, c) && FilesTold(files, all, handled, k, o, c)
    ensures UndeclaredTold(records + files, k, undeclared, o, c)
  {
    hide RecordFile, Emulated, ImageOf, TellsFile, TellsRecords, Accounts, Handles;
    var xs := records + files;
    assert forall x :: x in xs <==> x in records || x in files;
    HandledAreAccounted(k, undeclared, emulated, handled, o, c);
    forall f | f in undeclared && !Accounts(k, undeclared, f, o, c)
      ensures exists x :: x in xs && TellsFile(x, k, f, o, c)
    {
      assert f in all && f !in handled;
      var x :| x in files && TellsFile(x, k, f, o, c);
      assert x in xs;
    }
    forall b | b in undeclared && RecordFile(k, b, o, c) ensures exists x :: x in xs && TellsRecords(x, k, b, o, c) {
      assert b in emulated;
      var x :| x in records && TellsRecords(x, k, b, o, c);
      assert x in xs;
    }
  }

  /** What is missing beyond the record files is what no record file accounts for. */
  lemma LoneTogether(k: Keyed, undeclared: set<string>, emulated: seq<string>, all: seq<string>, handled: set<string>,
      records: seq<Compared>, oracle: bool, o: Execution, c: Execution)
    requires forall n :: n in emulated <==> n in undeclared && Emulated(k, n)
    requires forall n :: n in all <==> n in undeclared
    requires RecordsCompared(records, emulated, handled, k, o, c)
    ensures NamesBeyond(all, handled, oracle, o, c) == LoneNames(k, undeclared, oracle, o, c)
  {
    hide RecordFile, Emulated, ImageOf, AllMatch, Bound, Derived, Names, NoDuplicates, MissingNames;
    forall b | RecordFile(k, b, o, c) ensures Emulated(k, b) { RecordIsEmulated(k, b, o, c); }
    forall f | f in all
      ensures f in handled <==> exists b :: b in undeclared && RecordFile(k, b, o, c) && ImageOf(k, b, f)
    {
      if b :| b in undeclared && RecordFile(k, b, o, c) && ImageOf(k, b, f) { assert b in emulated; }
    }
  }

  lemma RecordIsEmulated(k: Keyed, b: string, o: Execution, c: Execution)
    requires RecordFile(k, b, o, c)
    ensures Emulated(k, b)
  {
    hide Decodes, BaseName;
    ImageIsEmulated(k, b);
  }

  lemma RaisingIsEmulated(k: Keyed, b: string, o: Execution, c: Execution)
    requires RaisingFile(k, b, o, c)
    ensures Emulated(k, b)
  {
    hide PairRaises, BaseName;
    ImageIsEmulated(k, b);
  }

  /** Every file the declaration does not name: an INDEXED or RELATIVE image by its records, any other
      by its bytes; all comparisons match exactly when each such file is alike on both sides.  Only a
      reader's exception can end it. */
  method CompareUndeclared(k: Keyed, declared: seq<Declared>, o: Execution, c: Execution)
    returns (r: Attempt<seq<Compared>>)
    ensures r.Failed? <==> exists b :: b in Undeclared(declared, o, c) && RaisingFile(k, b, o, c)
    ensures r.Failed? ==> r.failure == ReaderRaised
    ensures r.Done? ==> forall x :: x in r.value ==> Bound(x, o, c) && Derived(x)
    ensures r.Done? ==>
      (AllMatch(r.value) <==>
        forall f :: f in Undeclared(declared, o, c) ==> FileAlike(k, Undeclared(declared, o, c), f, o, c))
    ensures r.Done? ==>
      forall oracle :: MissingNames(r.value, oracle) == LoneNames(k, Undeclared(declared, o, c), oracle, o, c)
    ensures r.Done? ==> UndeclaredTold(r.value, k, Undeclared(declared, o, c), o, c)
    ensures r.Done? && (forall f, b :: f in Undeclared(declared, o, c) && b in Undeclared(declared, o, c) ==>
      f != b + "#records") ==>
      NoDuplicates(Names(r.value)) && forall n :: n in Names(r.value) ==> GENERATED <= n
  {
    hide Bound, Derived, Emulated, FileAlike, NamesClear, RecordFile, RecordsAgree, RaisingFile, SameFile, LoneNames,
      NamesBeyond, MissingNames, RecordsTold, FilesTold, UndeclaredTold, RecordsCompared, FilesCompared, AllMatch,
      Names, NoDuplicates;
    var undeclared := Undeclared(declared, o, c);
    forall b | RaisingFile(k, b, o, c) ensures Emulated(k, b) { RaisingIsEmulated(k, b, o, c); }
    var emulated := set n | n in undeclared && Emulated(k, n);
    var records, handled, keyed := CompareFileRecords(k, emulated, o, c);
    if records.Failed? {
      return records;
    }
    var files, all := CompareFiles(k, undeclared, handled, o, c);
    FilesTogether(k, undeclared, records.value, files, keyed, all, handled, o, c);
    ClearNames(undeclared);
    if NamesClear(undeclared) { DistinctTogether(undeclared, records.value, files, keyed, all, handled, k, o, c); }
    var xs := records.value + files;
    RecordsFacts(records.value, keyed, handled, k, o, c);
    FilesFacts(files, all, handled, k, o, c);
    ToldTogether(k, undeclared, records.value, files, keyed, all, handled, o, c);
    forall oracle: bool ensures MissingNames(xs, oracle) == LoneNames(k, undeclared, oracle, o, c) {
      MissingAppend(records.value, files, oracle);
      LoneTogether(k, undeclared, keyed, all, handled, records.value, oracle, o, c);
    }
    AllMatchTogether(records.value, files);
    return Done(xs);
  }
}
