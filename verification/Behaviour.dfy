/** `_run_declaration_driven` of engine/pipeline.py as a whole: every comparison is a MATCH exactly
    when the two executions behaved alike. */
module Behaviour {
  import opened Options
  import opened Ordering
  import opened Comparators
  import opened Pipeline
  import opened GeneratedFiles
  import opened BtreeImage
  import opened EmulatedFiles

  /** The declared artifacts agree under their policies; of stdout, stderr and exit status the ones the
      declaration omits are equal; every file it does not name is alike. */
  ghost predicate BehavedAlike(k: Keyed, declared: seq<Declared>, o: Execution, c: Execution) {
    && (forall a :: a in declared ==> Alike(a, o, c))
    && (!Declares(declared, STDOUT) ==> o.stdout == c.stdout)
    && (!Declares(declared, STDERR) ==> o.stderr == c.stderr)
    && (!Declares(declared, EXIT_STATUS) ==> ExitValue(o) == ExitValue(c))
    && forall f :: f in Undeclared(declared, o, c) ==> FileAlike(k, Undeclared(declared, o, c), f, o, c)
  }

  /** The sides of a comparison are what the executions have for the artifact. */
  predicate HasContents(x: Compared, a: Declared, o: Execution, c: Execution) {
    x.oracle.content == ContentOf(a, o) && x.candidate.content == ContentOf(a, c)
  }

  /** The first loop of `_run_declaration_driven`. */
  method CompareDeclared(artifacts: seq<Declared>, o: Execution, c: Execution) returns (r: Attempt<seq<Compared>>)
    ensures r.Failed? <==> exists a :: a in artifacts && Faulty(a, o, c)
    ensures r.Failed? ==> r.failure != ReaderRaised
    ensures r.Done? ==> |r.value| == |artifacts| && forall i :: 0 <= i < |artifacts| ==>
      Bound(r.value[i], o, c) && r.value[i].declared == artifacts[i] && HasContents(r.value[i], artifacts[i], o, c)
      && Tells(r.value[i], artifacts[i], o, c)
    ensures r.Done? ==> (AllMatch(r.value) <==> forall a :: a in artifacts ==> Alike(a, o, c))
  {
    hide Bound, Alike, Faulty, ContentOf, Produced, Counted, Resulted, Reported;
    var xs: seq<Compared> := [];
    for i := 0 to |artifacts|
      invariant |xs| == i && forall j :: 0 <= j < i ==>
        Bound(xs[j], o, c) && xs[j].declared == artifacts[j] && HasContents(xs[j], artifacts[j], o, c)
        && Tells(xs[j], artifacts[j], o, c) && !Faulty(artifacts[j], o, c)
      invariant forall j :: 0 <= j < i ==> (xs[j].result == MATCH <==> Alike(artifacts[j], o, c))
    {
      var x := CompareArtifact(artifacts[i], o, c);
      if x.Failed? {
        return Failed(x.failure);
      }
      xs := xs + [x.value];
    }
    if AllMatch(xs) {
      forall a | a in artifacts ensures Alike(a, o, c) {
        var i :| 0 <= i < |artifacts| && artifacts[i] == a;
        assert xs[i] in xs;
      }
    }
    return Done(xs);
  }

  lemma DefaultAlike(t: ArtifactType, name: string, o: Execution, c: Execution)
    requires !IsFile(t)
    ensures !Faulty(Default(t, name), o, c)
    ensures Alike(Default(t, name), o, c) <==>
      match t case STDOUT => o.stdout == c.stdout case STDERR => o.stderr == c.stderr
        case _ => ExitValue(o) == ExitValue(c)
  {
    var id := Default(t, name).comparatorId;
    assert !IsBlank(id[0]) && !IsBlank(id[|id| - 1]);
    assert Strip(id) == id;
  }

  /** The additions compare exactly what the declaration omits. */
  lemma RequiredAlike(declared: seq<Declared>, r: seq<Declared>, o: Execution, c: Execution)
    requires Extends(declared, r) && Declares(r, STDOUT) && Declares(r, STDERR) && Declares(r, EXIT_STATUS)
    ensures (forall a :: a in r ==> Alike(a, o, c)) <==>
      && (forall a :: a in declared ==> Alike(a, o, c))
      && (!Declares(declared, STDOUT) ==> o.stdout == c.stdout)
      && (!Declares(declared, STDERR) ==> o.stderr == c.stderr)
      && (!Declares(declared, EXIT_STATUS) ==> ExitValue(o) == ExitValue(c))
    ensures (exists a :: a in r && Faulty(a, o, c)) <==> exists a :: a in declared && Faulty(a, o, c)
  {
    forall i | |declared| <= i < |r|
      ensures !Faulty(r[i], o, c)
      ensures Alike(r[i], o, c) <==>
        match r[i].artifactType case STDOUT => o.stdout == c.stdout case STDERR => o.stderr == c.stderr
          case _ => ExitValue(o) == ExitValue(c)
    {
      assert Addition(declared, r[i]);
      DefaultAlike(r[i].artifactType, r[i].logicalName, o, c);
    }
    hide Alike, Faulty, Default;
    forall j | 0 <= j < |declared| ensures r[j] in declared { assert r[j] == declared[j]; }
    forall a ensures a in r <==> a in declared || exists i :: |declared| <= i < |r| && r[i] == a {
      if a in r && a !in declared {
        var i :| 0 <= i < |r| && r[i] == a;
      }
    }
    forall t | Declares(r, t) && !Declares(declared, t)
      ensures exists i :: |declared| <= i < |r| && r[i].artifactType == t {
      var a :| a in r && a.artifactType == t;
    }
  }

  ghost predicate AnyFaulty(declared: seq<Declared>, o: Execution, c: Execution) {
    exists a :: a in declared && Faulty(a, o, c)
  }

  ghost predicate AnyRaising(k: Keyed, declared: seq<Declared>, o: Execution, c: Execution) {
    exists b :: b in Undeclared(declared, o, c) && RaisingFile(k, b, o, c)
  }

  /** A run of a program that leaves its RELATIVE file empty ends in a reader's exception when the other
      side numbers a record with a superscript. */
  lemma SuperscriptEndsRun(o: Execution, c: Execution)
    requires o.files == map["F" := []] && c.files == map["F.rel" := SUPERSCRIPT_RELATIVE]
    ensures !AnyFaulty([], o, c) && AnyRaising(Keyed({}, {"F"}), [], o, c)
  {
    hide RelativeRaises;
    SuperscriptRaises();
    assert BaseName("F") == "F" && Image("F", RELATIVE) == "F.rel";
    assert SlotsHeld([], []);
    assert RaisingFile(Keyed({}, {"F"}), "F", o, c);
  }

  /** `_run_declaration_driven`.  It ends in a ValueError exactly when a declared artifact is at fault,
      in a reader's exception exactly when none is and the images of an undeclared file raise; and else
      every comparison it records is a MATCH exactly when the executions behaved alike. */
  method DeclarationDriven(k: Keyed, declared: seq<Declared>, o: Execution, c: Execution)
    returns (r: Attempt<seq<Compared>>, ghost artifacts: seq<Declared>)
    ensures r.Failed? <==> AnyFaulty(declared, o, c) || AnyRaising(k, declared, o, c)
    ensures r.Failed? ==> (r.failure == ReaderRaised <==> !AnyFaulty(declared, o, c))
    ensures r.Done? ==> (AllMatch(r.value) <==> BehavedAlike(k, declared, o, c))
    ensures Extends(declared, artifacts) && Declares(artifacts, EXIT_STATUS)
    ensures r.Done? ==> Covers(r.value, artifacts, o, c)
    ensures r.Done? ==> UndeclaredTold(r.value[|artifacts|..], k, Undeclared(declared, o, c), o, c)
    ensures r.Done? ==> forall oracle ::
      MissingNames(r.value[|artifacts|..], oracle) == LoneNames(k, Undeclared(declared, o, c), oracle, o, c)
  {
    hide Bound, Derived, Alike, Faulty, FileAlike, RaisingFile, NamesClear, Extends, Declares, NoDuplicates, Names,
      AllMatch, LoneNames, HasContents, MissingNames, Tells, UndeclaredTold;
    var all := Required(declared);
    artifacts := all;
    RequiredAlike(declared, all, o, c);
    var known := CompareDeclared(all, o, c);
    if known.Failed? {
      return Failed(known.failure), artifacts;
    }
    var rest := CompareUndeclared(k, declared, o, c);
    if rest.Failed? {
      return Failed(rest.failure), artifacts;
    }
    var xs := known.value + rest.value;
    AllMatchTogether(known.value, rest.value);
    assert xs[|artifacts|..] == rest.value;
    forall x | x in rest.value ensures Bound(x, o, c) && Derived(x) { }
    return Done(xs), artifacts;
  }

  /** Every comparison is bound to the two executions; the first ones are those of `artifacts`, the others
      those of undeclared files. */
  ghost predicate Covers(xs: seq<Compared>, artifacts: seq<Declared>, o: Execution, c: Execution) {
    && |artifacts| <= |xs| && (forall i :: 0 <= i < |xs| ==> Bound(xs[i], o, c))
    && (forall i :: 0 <= i < |artifacts| ==>
         Tells(xs[i], artifacts[i], o, c) && HasContents(xs[i], artifacts[i], o, c))
    && forall i :: |artifacts| <= i < |xs| ==> Derived(xs[i])
  }

  // ---- what behaving alike means for files ----

  /** A file only a STDOUT, STDERR or EXIT_STATUS artifact names: declared, so the last loop skips it,
      and compared by no one. */
  ghost predicate Hidden(declared: seq<Declared>, f: string) {
    f in DeclaredPaths(declared) && forall a :: a in declared && IsFile(a.artifactType) ==> a.outputPath != Some(f)
  }

  /** A file that a matching comparison speaks about. */
  ghost predicate Accounted(k: Keyed, declared: seq<Declared>, f: string, o: Execution, c: Execution) {
    || (exists a :: a in declared && IsFile(a.artifactType) && a.outputPath == Some(f) && Alike(a, o, c))
    || SameFile(f, o, c)
    || exists b :: ImageOf(k, b, f) && RecordsAgree(k, b, o, c)
  }

  /** When all comparisons match, every file either execution wrote is accounted for, unless its path
      is named only by an artifact that is no file. */
  lemma MatchAccountsForFiles(k: Keyed, declared: seq<Declared>, o: Execution, c: Execution, f: string)
    requires BehavedAlike(k, declared, o, c) && f in o.files.Keys + c.files.Keys && !Hidden(declared, f)
    ensures Accounted(k, declared, f, o, c)
  {
    hide Alike, SameFile, ImageOf, RecordsAgree, Emulated;
    if f in Undeclared(declared, o, c) {
      assert FileAlike(k, Undeclared(declared, o, c), f, o, c);
    } else {
      var a :| a in declared && IsFile(a.artifactType) && a.outputPath == Some(f);
      assert Alike(a, o, c);
    }
  }

  /** Without normalizations and with sequential order, matching means equal outputs and, for every file
      that is not hidden, equal bytes or equal records. */
  lemma MatchMeansSameEffects(k: Keyed, declared: seq<Declared>, o: Execution, c: Execution)
    requires BehavedAlike(k, declared, o, c)
    requires forall a :: a in declared ==> a.normalization == [] && a.order == SEQUENTIAL
    ensures o.stdout == c.stdout && o.stderr == c.stderr && ExitValue(o) == ExitValue(c)
    ensures forall f :: f in o.files.Keys + c.files.Keys && !Hidden(declared, f) ==>
      SameFile(f, o, c) || exists b :: ImageOf(k, b, f) && RecordsAgree(k, b, o, c)
  {
    hide ImageOf, RecordsAgree, FileAlike, RenderInt, Hidden;
    forall a | a in declared ensures AlikePlainly(a, o, c) { assert Alike(a, o, c); PlainlyAlike(a, o, c); }
    hide Alike;
    forall f | f in o.files.Keys + c.files.Keys && !Hidden(declared, f)
      ensures SameFile(f, o, c) || exists b :: ImageOf(k, b, f) && RecordsAgree(k, b, o, c)
    {
      MatchAccountsForFiles(k, declared, o, c, f);
    }
  }

  ghost predicate AlikePlainly(a: Declared, o: Execution, c: Execution) {
    match a.artifactType
    case STDOUT => o.stdout == c.stdout
    case STDERR => o.stderr == c.stderr
    case EXIT_STATUS => ExitValue(o) == ExitValue(c)
    case _ => a.outputPath.Some? && SameFile(a.outputPath.value, o, c)
  }

  lemma PlainlyAlike(a: Declared, o: Execution, c: Execution)
    requires a.normalization == [] && a.order == SEQUENTIAL && Alike(a, o, c)
    ensures AlikePlainly(a, o, c)
  {
    hide RenderInt;
    ExactAgreement(ContentOf(a, o), ContentOf(a, c));
  }

  // ---- two exact limits of the claim ----

  /** A declaration whose comparisons can all match. */
  predicate Satisfiable(declared: seq<Declared>) {
    forall a :: a in declared ==>
      Normalizable(a) && (IsFile(a.artifactType) ==> a.outputPath.Some? && a.outputPath.value != "")
  }

  /** The claim about files holds for a declaration exactly when every path it names is also named by a
      file artifact.  Otherwise one execution can write such a file and the other not, and everything
      still matches. */
  lemma FilesAccountedExactly(declared: seq<Declared>)
    requires Satisfiable(declared)
    ensures (forall k, o, c, f :: BehavedAlike(k, declared, o, c) && f in o.files.Keys + c.files.Keys ==>
      Accounted(k, declared, f, o, c))
       <==> forall p :: !Hidden(declared, p)
  {
    hide BehavedAlike, Accounted, Hidden;
    if forall p :: !Hidden(declared, p) {
      forall k, o, c, f | BehavedAlike(k, declared, o, c) && f in o.files.Keys + c.files.Keys
        ensures Accounted(k, declared, f, o, c) {
        MatchAccountsForFiles(k, declared, o, c, f);
      }
    }
    if p :| Hidden(declared, p) {
      var o, c := Witness(declared, {p}), Witness(declared, {});
      HiddenEscapes(declared, p);
      assert !Accounted(Keyed({}, {}), declared, p, o, c);
    }
  }

  /** An execution that wrote empty files under every declared file path and under `more`. */
  function Witness(declared: seq<Declared>, more: set<string>): Execution {
    var paths := set a | a in declared && IsFile(a.artifactType) && a.outputPath.Some? :: a.outputPath.value;
    Execution("x", [], [], Some(0), map f | f in paths + more :: [])
  }

  lemma EmptyAgrees(policy: seq<string>, order: Order)
    requires forall n :: n in policy ==> n == CRLF_TO_LF
    ensures Agree(Some([]), Some([]), policy, order)
  {
    hide ApplyOrdering;
    NormalizedIff([], policy);
  }

  lemma HiddenEscapes(declared: seq<Declared>, p: string)
    requires Satisfiable(declared) && Hidden(declared, p)
    ensures var k, o, c := Keyed({}, {}), Witness(declared, {p}), Witness(declared, {});
      BehavedAlike(k, declared, o, c) && p in o.files && !Accounted(k, declared, p, o, c)
  {
    var k, o, c := Keyed({}, {}), Witness(declared, {p}), Witness(declared, {});
    hide RenderInt, Agree, FileAlike;
    forall a | a in declared ensures Alike(a, o, c) {
      EmptyAgrees(a.normalization, a.order);
      assert a.artifactType != EXIT_STATUS ==> ContentOf(a, o) == Some([]) == ContentOf(a, c);
    }
    hide Alike, ContentOf;
    forall f | f in o.files.Keys + c.files.Keys ensures f in DeclaredPaths(declared) { }
  }

  /** Nor does the exit status tell a program without an exit code from one that exits with -1; it
      tells all others apart. */
  lemma NoExitCodeIsMinusOne(k: Keyed, declared: seq<Declared>, o: Execution, c: Execution)
    requires BehavedAlike(k, declared, o, c)
    ensures o.exitCode == c.exitCode || {o.exitCode, c.exitCode} == {None, Some(-1)}
  {
    hide FileAlike, RenderInt, Agree;
    if Declares(declared, EXIT_STATUS) {
      var a :| a in declared && a.artifactType == EXIT_STATUS;
      assert Alike(a, o, c);
    }
  }

  /** A missing exit code can be replaced by -1, and the other way round, without any comparison
      noticing. */
  lemma ExitCodeByValue(k: Keyed, declared: seq<Declared>, o: Execution, c: Execution)
    requires o.exitCode == None
    ensures BehavedAlike(k, declared, o, c) <==> BehavedAlike(k, declared, o.(exitCode := Some(-1)), c)
  {
    var p := o.(exitCode := Some(-1));
    hide Holds, SameRecords, RenderInt, Agree, Emulated, ReaderOf, Image;
    forall a ensures Alike(a, o, c) <==> Alike(a, p, c) { assert ContentOf(a, o) == ContentOf(a, p); }
    hide Alike;
    forall f, u ensures FileAlike(k, u, f, o, c) <==> FileAlike(k, u, f, p, c) {
      assert SameFile(f, o, c) <==> SameFile(f, p, c);
      forall b ensures RecordsAgree(k, b, o, c) <==> RecordsAgree(k, b, p, c) { }
    }
    hide FileAlike;
    assert Undeclared(declared, o, c) == Undeclared(declared, p, c);
  }
}
