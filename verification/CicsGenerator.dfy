/** engine/cics/generator.py: the grouped lists are merged back into step methods by four cursors,
    and two interfaces declare what the steps call.  Emitted Java is kept as data: a call or
    declaration is a method and its arguments or arity.  A method named after a lower-cased command
    is represented by the command itself. */
module CicsGenerator {
  import opened CicsModel
  import opened CicsMapper
  import opened CicsNames

  datatype Outcome<+T> = Ok(value: T) | IndexError {
    predicate IsFailure() { IndexError? }

    function PropagateFailure<U>(): Outcome<U>
      requires IndexError?
    {
      IndexError
    }

    function Extract(): T
      requires Ok?
    {
      value
    }
  }

  datatype RuntimeMethod = Receive | Send | Operation(op: CommandType) | Syncpoint | Abend | ReturnControl

  datatype Body =
    | ExplicitOnlyNote(kind: CommandType)
    | UnsupportedNote(kind: CommandType, rawText: string)
    | RuntimeCall(runtimeMethod: RuntimeMethod, args: seq<string>)
    | ClientCall(kind: CommandType, name: string)
    | UnmappedNote(kind: CommandType)

  datatype Cursors = Cursors(io: nat, access: nat, interaction: nat, boundary: nat)

  // ---- what one command means, without any list or cursor ----

  function IoCall(kind: CommandType, mapName: string, dataField: string, lengthField: string): Body {
    var m := if kind == SEND then Send else Receive;
    if dataField != "" || lengthField != "" then RuntimeCall(m, [mapName, dataField, lengthField])
    else RuntimeCall(m, [mapName])
  }

  function LinkCall(kind: CommandType, program: string): Body {
    ClientCall(kind, Pascal(FirstNonEmpty(program, "Unknown")))
  }

  function DirectBody(c: Command): Body {
    match Classify(c.ctype)
    case (ExplicitOnly, _) => ExplicitOnlyNote(c.ctype)
    case (Unsupported, _) => UnsupportedNote(c.ctype, c.rawText)
    case (Mapped, TerminalIo) =>
      IoCall(c.ctype, c.mapName, ValueName(FirstNonEmpty(c.intoField, c.fromField)), ValueName(c.lengthField))
    case (Mapped, ResourceAccess) => RuntimeCall(Operation(c.ctype), [ValueName(c.resourceName)])
    case (Mapped, _) =>
      if c.ctype == RETURN then RuntimeCall(ReturnControl, [])
      else if c.ctype == SYNCPOINT then RuntimeCall(Syncpoint, [])
      else if c.ctype == ABEND then RuntimeCall(Abend, [])
      else LinkCall(c.ctype, ValueName(c.programName))
  }

  // ---- the generator ----

  /** Just past the first boundary of `kind` at or after `cursor`, or the end. */
  function PastBoundary(boundaries: seq<Boundary>, cursor: nat, kind: BoundaryKind): nat
    decreases |boundaries| - cursor
  {
    if cursor >= |boundaries| then cursor
    else if boundaries[cursor].kind == kind then cursor + 1
    else PastBoundary(boundaries, cursor + 1, kind)
  }

  /** Just past the first RETURN interaction at or after `cursor`, or the end. */
  function PastReturn(interactions: seq<Interaction>, cursor: nat): nat
    decreases |interactions| - cursor
  {
    if cursor >= |interactions| then cursor
    else if interactions[cursor].kind == RETURN then cursor + 1
    else PastReturn(interactions, cursor + 1)
  }

  /** What rendering one flow step yields for an arbitrary service, mapped or not. */
  function Render(s: Service, step: FlowStep, cur: Cursors): Outcome<(Body, Cursors)> {
    if step.status == ExplicitOnly then Ok((ExplicitOnlyNote(step.kind), cur))
    else if step.status == Unsupported then Ok((UnsupportedNote(step.kind, step.rawText), cur))
    else if step.kind in {SEND, RECEIVE} then
      if cur.io >= |s.terminalIos| then IndexError else
      var io := s.terminalIos[cur.io];
      Ok((IoCall(step.kind, io.mapName, io.dataField, io.lengthField), cur.(io := cur.io + 1)))
    else if IsFileCommand(step.kind) || IsQueueCommand(step.kind) then
      if cur.access >= |s.accesses| then IndexError else
      var access := s.accesses[cur.access];
      Ok((RuntimeCall(Operation(access.operation), [access.resource]), cur.(access := cur.access + 1)))
    else if step.kind in {LINK, XCTL} then
      if cur.interaction >= |s.interactions| then IndexError else
      Ok((LinkCall(step.kind, s.interactions[cur.interaction].program), cur.(interaction := cur.interaction + 1)))
    else if step.kind == RETURN then
      Ok((RuntimeCall(ReturnControl, []), cur.(interaction := PastReturn(s.interactions, cur.interaction))))
    else if step.kind == SYNCPOINT then
      Ok((RuntimeCall(Syncpoint, []), cur.(boundary := PastBoundary(s.boundaries, cur.boundary, Commit))))
    else if step.kind == ABEND then
      Ok((RuntimeCall(Abend, []), cur.(boundary := PastBoundary(s.boundaries, cur.boundary, Rollback))))
    else Ok((UnmappedNote(step.kind), cur))
  }

  /** `_advance_boundary`. */
  method AdvanceBoundary(s: Service, start: nat, kind: BoundaryKind) returns (cursor: nat)
    ensures cursor == PastBoundary(s.boundaries, start, kind)
  {
    cursor := start;
    while cursor < |s.boundaries|
      invariant PastBoundary(s.boundaries, start, kind) == PastBoundary(s.boundaries, cursor, kind)
    {
      if s.boundaries[cursor].kind == kind {
        return cursor + 1;
      }
      cursor := cursor + 1;
    }
  }

  /** `_render_step`. */
  method RenderStep(s: Service, step: FlowStep, cur: Cursors) returns (r: Outcome<(Body, Cursors)>)
    ensures r == Render(s, step, cur)
  {
    if step.status == ExplicitOnly {
      return Ok((ExplicitOnlyNote(step.kind), cur));
    }
    if step.status == Unsupported {
      return Ok((UnsupportedNote(step.kind, step.rawText), cur));
    }
    if step.kind in {SEND, RECEIVE} {
      if cur.io >= |s.terminalIos| {
        return IndexError;
      }
      var io := s.terminalIos[cur.io];
      var m := if step.kind == SEND then Send else Receive;
      var args := [io.mapName];
      if io.dataField != "" || io.lengthField != "" {
        args := [io.mapName, io.dataField, io.lengthField];
      }
      return Ok((RuntimeCall(m, args), cur.(io := cur.io + 1)));
    }
    if IsFileCommand(step.kind) || IsQueueCommand(step.kind) {
      if cur.access >= |s.accesses| {
        return IndexError;
      }
      var access := s.accesses[cur.access];
      return Ok((RuntimeCall(Operation(access.operation), [access.resource]), cur.(access := cur.access + 1)));
    }
    if step.kind in {LINK, XCTL} {
      if cur.interaction >= |s.interactions| {
        return IndexError;
      }
      var program := s.interactions[cur.interaction].program;
      if program == "" {
        program := "Unknown";
      }
      return Ok((ClientCall(step.kind, Pascal(program)), cur.(interaction := cur.interaction + 1)));
    }
    if step.kind == RETURN {
      var cursor := cur.interaction;
      while cursor < |s.interactions| && s.interactions[cursor].kind != RETURN
        invariant PastReturn(s.interactions, cur.interaction) == PastReturn(s.interactions, cursor)
      {
        cursor := cursor + 1;
      }
      if cursor < |s.interactions| {
        cursor := cursor + 1;
      }
      return Ok((RuntimeCall(ReturnControl, []), cur.(interaction := cursor)));
    }
    if step.kind == SYNCPOINT {
      var cursor := AdvanceBoundary(s, cur.boundary, Commit);
      return Ok((RuntimeCall(Syncpoint, []), cur.(boundary := cursor)));
    }
    if step.kind == ABEND {
      var cursor := AdvanceBoundary(s, cur.boundary, Rollback);
      return Ok((RuntimeCall(Abend, []), cur.(boundary := cursor)));
    }
    return Ok((UnmappedNote(step.kind), cur));
  }

  function RenderFlow(s: Service, n: nat): Outcome<(seq<Body>, Cursors)>
    requires n <= |s.flow|
  {
    if n == 0 then Ok(([], Cursors(0, 0, 0, 0)))
    else
      var (bodies, cur) :- RenderFlow(s, n - 1);
      var (body, next) :- Render(s, s.flow[n - 1], cur);
      Ok((bodies + [body], next))
  }

  /** `_generate_steps`: the body of every step method, or the IndexError Python would raise. */
  method GenerateSteps(s: Service) returns (r: Outcome<seq<Body>>)
    ensures match RenderFlow(s, |s.flow|)
            case Ok((bodies, _)) => r == Ok(bodies)
            case IndexError => r == IndexError
  {
    var bodies, cur := [], Cursors(0, 0, 0, 0);
    for i := 0 to |s.flow|
      invariant RenderFlow(s, i) == Ok((bodies, cur))
    {
      var rendered := RenderStep(s, s.flow[i], cur);
      if rendered.IndexError? {
        RenderFlowFails(s, i + 1, |s.flow|);
        return IndexError;
      }
      bodies, cur := bodies + [rendered.value.0], rendered.value.1;
    }
    r := Ok(bodies);
  }

  lemma {:induction false} RenderFlowFails(s: Service, i: nat, n: nat)
    requires i <= n <= |s.flow| && RenderFlow(s, i) == IndexError
    ensures RenderFlow(s, n) == IndexError
    decreases n - i
  {
    if i < n {
      RenderFlowFails(s, i + 1, n);
    }
  }

  // ---- alignment of the cursors ----

  /** Boundaries consumed by the commands so far: those up to the last SYNCPOINT or ABEND.  A RETURN
      leaves its boundary behind the cursor, to be skipped later. */
  function BoundaryMark(commands: seq<Command>): nat {
    if commands == [] then 0
    else if commands[|commands| - 1].ctype in {SYNCPOINT, ABEND} then |Collect(BoundariesOf, commands)|
    else BoundaryMark(commands[..|commands| - 1])
  }

  function AlignedCursors(commands: seq<Command>): Cursors {
    Cursors(|Collect(IosOf, commands)|, |Collect(AccessesOf, commands)|,
            |Collect(InteractionsOf, commands)|, BoundaryMark(commands))
  }

  function DirectBodies(commands: seq<Command>): seq<Body> {
    seq(|commands|, i requires 0 <= i < |commands| => DirectBody(commands[i]))
  }

  lemma {:induction false} SkippedAreReturns(commands: seq<Command>)
    ensures BoundaryMark(commands) <= |Collect(BoundariesOf, commands)|
    ensures forall k :: BoundaryMark(commands) <= k < |Collect(BoundariesOf, commands)| ==>
              Collect(BoundariesOf, commands)[k].kind == PseudoConversational
  {
    if commands != [] {
      SkippedAreReturns(commands[..|commands| - 1]);
    }
  }

  lemma {:induction false} PastBoundaryFinds(boundaries: seq<Boundary>, cursor: nat, k: nat, kind: BoundaryKind)
    requires cursor <= k < |boundaries| && boundaries[k].kind == kind
    requires forall j :: cursor <= j < k ==> boundaries[j].kind != kind
    ensures PastBoundary(boundaries, cursor, kind) == k + 1
    decreases k - cursor
  {
    if cursor < k {
      PastBoundaryFinds(boundaries, cursor + 1, k, kind);
    }
  }

  /** The element a command contributed is where its cursor points when its step is rendered. */
  lemma ElementInPlace<T>(contribution: Command -> seq<T>, commands: seq<Command>, i: nat)
    requires i < |commands|
    ensures var at := |Collect(contribution, commands[..i])|; var all := Collect(contribution, commands);
      at + |contribution(commands[i])| <= |all|
        && all[at..at + |contribution(commands[i])|] == contribution(commands[i])
    ensures |Collect(contribution, commands[..i + 1])| ==
      |Collect(contribution, commands[..i])| + |contribution(commands[i])|
  {
    CollectOne(contribution, commands, i);
    CollectPrefix(contribution, commands, i + 1);
    CollectPrefix(contribution, commands, i);
  }

  ghost predicate At<T>(list: seq<T>, cursor: nat, elements: seq<T>) {
    cursor + |elements| <= |list| && list[cursor..cursor + |elements|] == elements
  }

  function BoundaryAfter(s: Service, c: Command, cursor: nat): nat {
    if c.ctype == SYNCPOINT then PastBoundary(s.boundaries, cursor, Commit)
    else if c.ctype == ABEND then PastBoundary(s.boundaries, cursor, Rollback)
    else cursor
  }

  /** A step whose cursors point at its own command's elements renders as the command itself. */
  lemma RenderAligned(s: Service, c: Command, i: nat, cur: Cursors)
    requires At(s.terminalIos, cur.io, IosOf(c))
    requires At(s.accesses, cur.access, AccessesOf(c))
    requires At(s.interactions, cur.interaction, InteractionsOf(c))
    ensures Render(s, StepOf(c, i), cur) == Ok((DirectBody(c),
              Cursors(cur.io + |IosOf(c)|, cur.access + |AccessesOf(c)|, cur.interaction + |InteractionsOf(c)|,
                      BoundaryAfter(s, c, cur.boundary))))
  {
    hide PastBoundary, ValueName, Pascal, At;
    if IosOf(c) != [] { FirstElement(s.terminalIos, cur.io, IosOf(c)); }
    if AccessesOf(c) != [] { FirstElement(s.accesses, cur.access, AccessesOf(c)); }
    if InteractionsOf(c) != [] { FirstElement(s.interactions, cur.interaction, InteractionsOf(c)); }
  }

  lemma FirstElement<T>(list: seq<T>, cursor: nat, elements: seq<T>)
    requires At(list, cursor, elements) && elements != []
    ensures cursor < |list| && list[cursor] == elements[0]
  {
    assert list[cursor] == list[cursor..cursor + |elements|][0];
  }

  lemma StepAligned(program: string, commands: seq<Command>, i: nat)
    requires i < |commands|
    ensures Render(ServiceOf(program, commands), FlowOf(commands)[i], AlignedCursors(commands[..i]))
         == Ok((DirectBody(commands[i]), AlignedCursors(commands[..i + 1])))
  {
    hide Render, DirectBody, Collect, IosOf, AccessesOf, InteractionsOf, BoundaryMark, BoundaryAfter;
    var c, s := commands[i], ServiceOf(program, commands);
    ElementInPlace(IosOf, commands, i);
    ElementInPlace(AccessesOf, commands, i);
    ElementInPlace(InteractionsOf, commands, i);
    RenderAligned(s, c, i, AlignedCursors(commands[..i]));
    BoundaryAligned(program, commands, i);
  }

  /** A SYNCPOINT or ABEND step leaves the boundary cursor just past its own boundary. */
  lemma BoundaryAligned(program: string, commands: seq<Command>, i: nat)
    requires i < |commands|
    ensures BoundaryAfter(ServiceOf(program, commands), commands[i], BoundaryMark(commands[..i])) ==
      BoundaryMark(commands[..i + 1])
  {
    var all, at := Collect(BoundariesOf, commands), |Collect(BoundariesOf, commands[..i])|;
    assert commands[..i + 1][..i] == commands[..i];
    if commands[i].ctype in {SYNCPOINT, ABEND} {
      ElementInPlace(BoundariesOf, commands, i);
      assert all[at] == all[at..at + 1][0];
      SkippedAreReturns(commands[..i]);
      CollectPrefix(BoundariesOf, commands, i);
      PastBoundaryFinds(all, BoundaryMark(commands[..i]), at, BoundariesOf(commands[i])[0].kind);
    }
  }

  lemma NothingConsumed()
    ensures AlignedCursors([]) == Cursors(0, 0, 0, 0)
  {
  }

  lemma {:induction false} FlowAligned(program: string, commands: seq<Command>, n: nat)
    requires n <= |commands|
    ensures RenderFlow(ServiceOf(program, commands), n) ==
      Ok((DirectBodies(commands[..n]), AlignedCursors(commands[..n])))
  {
    hide Render, DirectBody, AlignedCursors;
    if n == 0 {
      assert AlignedCursors([]) == Cursors(0, 0, 0, 0) by { NothingConsumed(); }
      assert commands[..n] == [];
    } else {
      FlowAligned(program, commands, n - 1);
      StepAligned(program, commands, n - 1);
      assert DirectBodies(commands[..n]) == DirectBodies(commands[..n - 1]) + [DirectBody(commands[n - 1])];
    }
  }

  /** Splitting a program and merging it back renders every command, in source order, exactly as if
      it had been rendered on its own; no cursor ever leaves its list. */
  lemma SplitThenMerge(program: string, commands: seq<Command>)
    ensures var s := ServiceOf(program, commands);
      RenderFlow(s, |s.flow|) == Ok((DirectBodies(commands), AlignedCursors(commands)))
  {
    FlowAligned(program, commands, |commands|);
    hide Render, RenderFlow, AlignedCursors;
    assert commands[..|commands|] == commands;
  }

  // ---- what a step says of its command ----

  /** The body of a step in terms of the operands of its command: the arguments in their order, the names
      behind the colons of host variables, the file or queue, the program, or that it is not translated. */
  ghost predicate Says(c: Command, body: Body) {
    match c.ctype
    case SEND => SaysTerminal(c, Send, body)
    case RECEIVE => SaysTerminal(c, Receive, body)
    case RETURN => body == RuntimeCall(ReturnControl, [])
    case SYNCPOINT => body == RuntimeCall(Syncpoint, [])
    case ABEND => body == RuntimeCall(Abend, [])
    case LINK => SaysLink(c, body)
    case XCTL => SaysLink(c, body)
    case HANDLE_CONDITION => body == ExplicitOnlyNote(HANDLE_CONDITION)
    case HANDLE_AID => body == ExplicitOnlyNote(HANDLE_AID)
    case ASSIGN => body == ExplicitOnlyNote(ASSIGN)
    case _ =>
      if c.ctype in {READ, WRITE, REWRITE, DELETE, STARTBR, READNEXT, READPREV, ENDBR, WRITEQ, READQ, DELETEQ}
      then exists resource :: Behind(c.resourceName, resource) && body == RuntimeCall(Operation(c.ctype), [resource])
      else body == UnsupportedNote(c.ctype, c.rawText)
  }

  /** SEND and RECEIVE pass the map, the data and the length, or the map alone if both others are empty; the
      data is INTO, or FROM without one. */
  ghost predicate SaysTerminal(c: Command, m: RuntimeMethod, body: Body) {
    exists data, length ::
      && Behind(c.lengthField, length)
      && (c.intoField != "" ==> Behind(c.intoField, data)) && (c.intoField == "" ==> Behind(c.fromField, data))
      && body == RuntimeCall(m, if data == "" && length == "" then [c.mapName] else [c.mapName, data, length])
  }

  ghost predicate SaysLink(c: Command, body: Body) {
    exists program ::
      Behind(c.programName, program)
        && body == ClientCall(c.ctype, Pascal(if program == "" then "Unknown" else program))
  }

  lemma IoCallSays(kind: CommandType, mapName: string, data: string, length: string)
    requires kind == SEND || kind == RECEIVE
    ensures IoCall(kind, mapName, data, length) == RuntimeCall(
      if kind == SEND then Send else Receive, if data == "" && length == "" then [mapName] else [mapName, data, length])
  {
  }

  lemma TerminalBody(c: Command)
    requires c.ctype == SEND || c.ctype == RECEIVE
    ensures DirectBody(c) ==
      IoCall(c.ctype, c.mapName, ValueName(FirstNonEmpty(c.intoField, c.fromField)), ValueName(c.lengthField))
  {
    hide IoCall, ValueName, FirstNonEmpty;
  }

  lemma TerminalSays(c: Command, m: RuntimeMethod)
    requires (c.ctype == SEND && m == Send) || (c.ctype == RECEIVE && m == Receive)
    ensures SaysTerminal(c, m, DirectBody(c))
  {
    hide Behind, ValueName, IoCall, DirectBody;
    var data, length := ValueName(FirstNonEmpty(c.intoField, c.fromField)), ValueName(c.lengthField);
    TerminalBody(c);
    IoCallSays(c.ctype, c.mapName, data, length);
    ValueNameIsBehind(c.lengthField);
    ValueNameIsBehind(FirstNonEmpty(c.intoField, c.fromField));
    assert Behind(c.lengthField, length);
  }

  lemma LinkSays(c: Command)
    requires c.ctype in {LINK, XCTL}
    ensures SaysLink(c, DirectBody(c))
  {
    hide Behind, ValueName, Pascal;
    ValueNameIsBehind(c.programName);
  }

  predicate Translated(t: CommandType) { IsFileCommand(t) || IsQueueCommand(t) || t in {SEND, RECEIVE, LINK, XCTL} }

  lemma AccessSays(c: Command)
    requires IsFileCommand(c.ctype) || IsQueueCommand(c.ctype)
    ensures Says(c, DirectBody(c))
  {
    hide Behind, ValueName, SaysTerminal, SaysLink;
    ValueNameIsBehind(c.resourceName);
  }

  lemma PlainSays(c: Command)
    requires !Translated(c.ctype)
    ensures Says(c, DirectBody(c))
  {
    hide Behind, ValueName, SaysTerminal, SaysLink, IoCall, LinkCall;
  }

  lemma DirectBodySays(c: Command)
    ensures Says(c, DirectBody(c))
  {
    if !Translated(c.ctype) {
      PlainSays(c);
    } else if IsFileCommand(c.ctype) || IsQueueCommand(c.ctype) {
      AccessSays(c);
    } else {
      hide Behind, SaysTerminal, SaysLink, DirectBody;
      if c.ctype == SEND { TerminalSays(c, Send); }
      if c.ctype == RECEIVE { TerminalSays(c, Receive); }
      if c.ctype in {LINK, XCTL} { LinkSays(c); }
    }
  }

  /** The service of any program is rendered without a failure, one body for each command, and each body
      says what its command does. */
  lemma StepsSayTheirCommands(program: string, commands: seq<Command>)
    ensures var s := ServiceOf(program, commands); var r := RenderFlow(s, |s.flow|);
      && r.Ok? && |r.value.0| == |commands|
      && forall i :: 0 <= i < |commands| ==> Says(commands[i], r.value.0[i])
  {
    hide RenderFlow, Says, DirectBody;
    SplitThenMerge(program, commands);
    forall i | 0 <= i < |commands| ensures Says(commands[i], DirectBodies(commands)[i]) { DirectBodySays(commands[i]); }
  }

  // ---- the interfaces ----

  datatype Declaration = Declaration(runtimeMethod: RuntimeMethod, arity: nat)

  function AllIos(services: seq<Service>): set<Io> { set s, io | s in services && io in s.terminalIos :: io }

  function AllAccesses(services: seq<Service>): set<Access> { set s, a | s in services && a in s.accesses :: a }

  function AllBoundaries(services: seq<Service>): set<Boundary> { set s, b | s in services && b in s.boundaries :: b }

  predicate HasField(io: Io) { io.dataField != "" || io.lengthField != "" }

  function IoDeclarations(ios: set<Io>, kind: CommandType, m: RuntimeMethod): set<Declaration> {
    (if exists io :: io in ios && io.kind == kind then {Declaration(m, 1)} else {}) +
    (if exists io :: io in ios && io.kind == kind && HasField(io) then {Declaration(m, 3)} else {})
  }

  function BoundaryDeclaration(boundaries: set<Boundary>, kind: BoundaryKind, m: RuntimeMethod): set<Declaration> {
    if exists b :: b in boundaries && b.kind == kind then {Declaration(m, 0)} else {}
  }

  /** `_generate_runtime`: the methods of the CicsRuntime interface. */
  function RuntimeInterface(services: seq<Service>): set<Declaration> {
    IoDeclarations(AllIos(services), RECEIVE, Receive) + IoDeclarations(AllIos(services), SEND, Send) +
    (set a | a in AllAccesses(services) :: Declaration(Operation(a.operation), 1)) +
    BoundaryDeclaration(AllBoundaries(services), Commit, Syncpoint) +
    BoundaryDeclaration(AllBoundaries(services), Rollback, Abend) +
    BoundaryDeclaration(AllBoundaries(services), PseudoConversational, ReturnControl)
  }

  /** A target of the ProgramClient interface; the method is named by its kind and `Pascal(program)`. */
  datatype Target = Target(kind: CommandType, program: string) {
    function MethodName(): (CommandType, string) { (kind, Pascal(program)) }
  }

  predicate HasTarget(services: seq<Service>, t: Target) {
    t.kind in {LINK, XCTL} && t.program != "" &&
    exists s, x :: s in services && x in s.interactions && x.kind == t.kind && x.program == t.program
  }

  /** The target collection of `_generate_program_client`: every non-empty LINK and XCTL target of
      any service, each once. */
  method ClientTargets(services: seq<Service>) returns (targets: seq<Target>)
    ensures forall t :: t in targets <==> HasTarget(services, t)
    ensures forall i, j :: 0 <= i < j < |targets| ==> targets[i] != targets[j]
  {
    targets := [];
    var seen: set<Target> := {};
    for i := 0 to |services|
      invariant forall t :: t in targets <==> HasTarget(services[..i], t)
      invariant forall t :: t in seen <==> t in targets
      invariant forall j, k :: 0 <= j < k < |targets| ==> targets[j] != targets[k]
    {
      var xs := services[i].interactions;
      for j := 0 to |xs|
        invariant forall t :: t in targets <==>
          HasTarget(services[..i], t) || HasTarget([services[i].(interactions := xs[..j])], t)
        invariant forall t :: t in seen <==> t in targets
        invariant forall j, k :: 0 <= j < k < |targets| ==> targets[j] != targets[k]
      {
        var x := xs[j];
        var key := Target(x.kind, x.program);
        TargetStep(services[i], j);
        if x.kind in {LINK, XCTL} && x.program != "" && key !in seen {
          targets := targets + [key];
          seen := seen + {key};
        }
      }
      assert services[i].(interactions := xs[..|xs|]) == services[i] by { assert xs[..|xs|] == xs; }
      TargetService(services, i);
    }
    assert services[..|services|] == services;
  }

  lemma TargetStep(s: Service, j: nat)
    requires j < |s.interactions|
    ensures var x := s.interactions[j]; forall t ::
      HasTarget([s.(interactions := s.interactions[..j + 1])], t) <==>
      HasTarget([s.(interactions := s.interactions[..j])], t)
        || (t == Target(x.kind, x.program) && x.kind in {LINK, XCTL} && x.program != "")
  {
    var x := s.interactions[j];
    var s0, s1 := s.(interactions := s.interactions[..j]), s.(interactions := s.interactions[..j + 1]);
    assert s1.interactions == s0.interactions + [x];
    assert s0 in [s0] && s1 in [s1] && x in s1.interactions;
    forall t | HasTarget([s0], t) ensures HasTarget([s1], t) {
      var y :| y in s0.interactions && y.kind == t.kind && y.program == t.program;
      assert y in s1.interactions;
    }
  }

  lemma TargetService(services: seq<Service>, i: nat)
    requires i < |services|
    ensures forall t :: HasTarget(services[..i + 1], t) <==> HasTarget(services[..i], t) || HasTarget([services[i]], t)
  {
    assert services[..i + 1] == services[..i] + [services[i]];
    assert services[i] in services[..i + 1] && services[i] in [services[i]];
    forall t | HasTarget(services[..i], t) ensures HasTarget(services[..i + 1], t) {
      var s, x :| s in services[..i] && x in s.interactions && x.kind == t.kind && x.program == t.program;
      assert s in services[..i + 1];
    }
  }

  // ---- every call is declared ----

  ghost predicate ClientDeclares(services: seq<Service>, kind: CommandType, name: string) {
    exists t :: HasTarget(services, t) && t.MethodName() == (kind, name)
  }

  lemma IoDeclared(services: seq<Service>, io: Io)
    requires io in AllIos(services) && io.kind in {SEND, RECEIVE}
    ensures var call := IoCall(io.kind, io.mapName, io.dataField, io.lengthField);
      Declaration(call.runtimeMethod, |call.args|) in RuntimeInterface(services)
  {
    hide AllIos, AllAccesses, AllBoundaries;
  }

  lemma AccessDeclared(services: seq<Service>, a: Access)
    requires a in AllAccesses(services)
    ensures Declaration(Operation(a.operation), 1) in RuntimeInterface(services)
  {
    hide AllIos, AllAccesses, AllBoundaries, IoDeclarations, BoundaryDeclaration;
  }

  lemma BoundaryDeclared(services: seq<Service>, b: Boundary)
    requires b in AllBoundaries(services)
    ensures Declaration(if b.kind == Commit then Syncpoint else if b.kind == Rollback then Abend else ReturnControl, 0)
            in RuntimeInterface(services)
  {
    hide AllIos, AllAccesses, AllBoundaries, IoDeclarations;
  }

  /** What a command contributes is seen by the interface generator. */
  lemma ContributionsSeen(programs: seq<Program>, p: Program, c: Command)
    requires p in programs && c in p.commands
    ensures var services := ServicesOf(programs);
      && (IosOf(c) != [] ==> IosOf(c)[0] in AllIos(services))
      && (AccessesOf(c) != [] ==> AccessesOf(c)[0] in AllAccesses(services))
      && (BoundariesOf(c) != [] ==> BoundariesOf(c)[0] in AllBoundaries(services))
  {
    hide ValueName, Pascal, Collect, IosOf, AccessesOf, BoundariesOf;
    var services, s := ServicesOf(programs), ServiceOf(p.id, p.commands);
    var k :| 0 <= k < |programs| && programs[k] == p;
    assert services[k] == s && s in services;
    if IosOf(c) != [] { CollectMember(IosOf, p.commands, IosOf(c)[0]); }
    if AccessesOf(c) != [] { CollectMember(AccessesOf, p.commands, AccessesOf(c)[0]); }
    if BoundariesOf(c) != [] { CollectMember(BoundariesOf, p.commands, BoundariesOf(c)[0]); }
  }

  lemma CommandCallDeclared(programs: seq<Program>, p: Program, c: Command)
    requires p in programs && c in p.commands && DirectBody(c).RuntimeCall?
    ensures Declaration(DirectBody(c).runtimeMethod, |DirectBody(c).args|) in RuntimeInterface(ServicesOf(programs))
  {
    hide ValueName, Pascal, Collect, RuntimeInterface, AllIos, AllAccesses, AllBoundaries, ServicesOf;
    var services := ServicesOf(programs);
    ContributionsSeen(programs, p, c);
    if IosOf(c) != [] {
      IoDeclared(services, IosOf(c)[0]);
    } else if AccessesOf(c) != [] {
      AccessDeclared(services, AccessesOf(c)[0]);
    } else {
      BoundaryDeclared(services, BoundariesOf(c)[0]);
    }
  }

  /** Every service of a merged application is generated without an IndexError, and every runtime
      call in it is a method of the one runtime interface, at its arity. */
  lemma RuntimeCallsDeclared(programs: seq<Program>, k: nat)
    requires k < |programs|
    ensures var s := ServicesOf(programs)[k];
      && RenderFlow(s, |s.flow|).Ok?
      && forall body :: body in RenderFlow(s, |s.flow|).value.0 && body.RuntimeCall? ==>
           Declaration(body.runtimeMethod, |body.args|) in RuntimeInterface(ServicesOf(programs))
  {
    var p := programs[k];
    SplitThenMerge(p.id, p.commands);
    hide RenderFlow, DirectBody, RuntimeInterface;
    forall body | body in DirectBodies(p.commands) && body.RuntimeCall?
      ensures Declaration(body.runtimeMethod, |body.args|) in RuntimeInterface(ServicesOf(programs))
    {
      var i :| 0 <= i < |p.commands| && DirectBodies(p.commands)[i] == body;
      CommandCallDeclared(programs, p, p.commands[i]);
    }
  }

  predicate IsLink(c: Command) { c.ctype in {LINK, XCTL} }

  /** A LINK or XCTL command of some program, with the program name it carries. */
  ghost predicate Links(programs: seq<Program>, kind: CommandType, name: string) {
    exists p, c :: p in programs && c in p.commands && IsLink(c) && c.ctype == kind && ValueName(c.programName) == name
  }

  lemma TargetsAreLinks(programs: seq<Program>, t: Target)
    ensures HasTarget(ServicesOf(programs), t) <==> t.program != "" && Links(programs, t.kind, t.program)
  {
    var services := ServicesOf(programs);
    hide ValueName, Collect;
    if HasTarget(services, t) {
      var s, x :| s in services && x in s.interactions && x.kind == t.kind && x.program == t.program;
      var k :| 0 <= k < |services| && services[k] == s;
      CollectMember(InteractionsOf, programs[k].commands, x);
      assert programs[k] in programs;
    }
    if t.program != "" && Links(programs, t.kind, t.program) {
      var p, c :| p in programs && c in p.commands && IsLink(c) && c.ctype == t.kind
        && ValueName(c.programName) == t.program;
      var k :| 0 <= k < |programs| && programs[k] == p;
      assert services[k] in services;
      CollectMember(InteractionsOf, p.commands, InteractionsOf(c)[0]);
    }
  }

  lemma LinkCallDeclared(programs: seq<Program>, kind: CommandType, program: string)
    requires Links(programs, kind, program)
    ensures ClientDeclares(ServicesOf(programs), kind, LinkCall(kind, program).name) <==>
      program != "" || exists other :: other != "" && Links(programs, kind, other) && Pascal(other) == "Unknown"
  {
    PascalUnknown();
    hide Pascal, Links, HasTarget;
    if program != "" {
      TargetsAreLinks(programs, Target(kind, program));
    }
    forall t ensures HasTarget(ServicesOf(programs), t) <==> t.program != "" && Links(programs, t.kind, t.program) {
      TargetsAreLinks(programs, t);
    }
    if other :| other != "" && Links(programs, kind, other) && Pascal(other) == "Unknown" {
      assert HasTarget(ServicesOf(programs), Target(kind, other));
    }
  }

  /** Every client call in the generated bodies of every service is a method of the client interface. */
  ghost predicate ClientClosed(programs: seq<Program>) {
    var services := ServicesOf(programs);
    forall k :: 0 <= k < |services| ==>
      && RenderFlow(services[k], |services[k].flow|).Ok?
      && forall body :: body in RenderFlow(services[k], |services[k].flow|).value.0 && body.ClientCall? ==>
           ClientDeclares(services, body.kind, body.name)
  }

  /** The same, command by command. */
  ghost predicate LinksDeclared(programs: seq<Program>) {
    forall p, c :: p in programs && c in p.commands && IsLink(c) ==>
      ClientDeclares(ServicesOf(programs), c.ctype, DirectBody(c).name)
  }

  lemma LinksAreClientCalls(c: Command)
    ensures DirectBody(c).ClientCall? <==> IsLink(c)
    ensures IsLink(c) ==> DirectBody(c) == LinkCall(c.ctype, ValueName(c.programName))
  {
    hide ValueName, Pascal;
  }

  /** The generated bodies are those of the commands, so closure is a matter of the commands. */
  lemma ClosedByCommands(programs: seq<Program>)
    ensures ClientClosed(programs) <==> LinksDeclared(programs)
  {
    var services := ServicesOf(programs);
    forall k | 0 <= k < |programs|
      ensures RenderFlow(services[k], |services[k].flow|).Ok?
      ensures RenderFlow(services[k], |services[k].flow|).value.0 == DirectBodies(programs[k].commands)
    {
      SplitThenMerge(programs[k].id, programs[k].commands);
    }
    forall c
      ensures (DirectBody(c).ClientCall? <==> IsLink(c)) && (IsLink(c) ==> DirectBody(c).kind == c.ctype)
    {
      LinksAreClientCalls(c);
    }
    hide RenderFlow, DirectBody, ClientDeclares, IsLink, ServicesOf;
    if ClientClosed(programs) {
      forall p, c | p in programs && c in p.commands && IsLink(c)
        ensures ClientDeclares(services, c.ctype, DirectBody(c).name) {
        var k :| 0 <= k < |programs| && programs[k] == p;
        var i :| 0 <= i < |p.commands| && p.commands[i] == c;
        assert DirectBodies(p.commands)[i] == DirectBody(c);
        assert DirectBody(c) in DirectBodies(programs[k].commands);
      }
    }
    if LinksDeclared(programs) {
      forall k, body | 0 <= k < |services| && body in RenderFlow(services[k], |services[k].flow|).value.0
        && body.ClientCall?
        ensures ClientDeclares(services, body.kind, body.name)
      {
        var i :| 0 <= i < |programs[k].commands| && DirectBodies(programs[k].commands)[i] == body;
        assert programs[k] in programs && programs[k].commands[i] in programs[k].commands;
      }
    }
  }

  /** A program whose Java name is that of a missing one stands in for the missing ones of its kind. */
  ghost predicate StandIn(programs: seq<Program>, kind: CommandType) {
    exists other :: other != "" && Links(programs, kind, other) && Pascal(other) == "Unknown"
  }

  /** Every client call in the generated services is declared exactly when every kind of link that
      lacks a program name somewhere has a stand-in. */
  lemma ClientCallsDeclared(programs: seq<Program>)
    ensures ClientClosed(programs) <==> forall kind :: Links(programs, kind, "") ==> StandIn(programs, kind)
  {
    hide ValueName, Pascal, ClientDeclares, ClientClosed;
    ClosedByCommands(programs);
    forall p, c | p in programs && c in p.commands && IsLink(c)
      ensures Links(programs, c.ctype, ValueName(c.programName))
        && DirectBody(c) == LinkCall(c.ctype, ValueName(c.programName))
      ensures ClientDeclares(ServicesOf(programs), c.ctype, DirectBody(c).name) <==>
        ValueName(c.programName) != "" || StandIn(programs, c.ctype)
    {
      LinksAreClientCalls(c);
      LinkCallDeclared(programs, c.ctype, ValueName(c.programName));
    }
  }

  /** An operand of colons alone, which names nothing. */
  predicate OnlyColons(value: string) { forall i :: 0 <= i < |value| ==> value[i] == ':' }

  lemma {:induction false} NamelessAreColons(value: string)
    ensures ValueName(value) == "" <==> OnlyColons(value)
  {
    if value != "" && value[0] == ':' {
      NamelessAreColons(value[1..]);
      if OnlyColons(value[1..]) {
        forall i | 0 <= i < |value| ensures value[i] == ':' { if i > 0 { assert value[1..][i - 1] == value[i]; } }
      }
      if OnlyColons(value) {
        forall i | 0 <= i < |value[1..]| ensures value[1..][i] == ':' { assert value[i + 1] == ':'; }
      }
    }
  }

  /** The mapper reports no ERROR for any program. */
  ghost predicate NoErrors(programs: seq<Program>) {
    forall p, c :: p in programs && c in p.commands ==> !MissingOperand(c)
  }

  /** Programs the mapper finds no ERROR in are generated with every client call declared, if and only
      if each kind of link to a name of colons alone has a stand-in; in particular if there are none. */
  lemma CheckedProgramsClose(programs: seq<Program>)
    requires NoErrors(programs)
    ensures ClientClosed(programs) <==>
      forall p, c ::
        p in programs && c in p.commands && IsLink(c) && c.programName != "" && OnlyColons(c.programName) ==>
          StandIn(programs, c.ctype)
  {
    hide Pascal, ClientClosed, StandIn, ValueName, OnlyColons;
    ClientCallsDeclared(programs);
    forall value ensures ValueName(value) == "" <==> OnlyColons(value) { NamelessAreColons(value); }
    forall p, c | p in programs && c in p.commands && IsLink(c) && OnlyColons(c.programName)
      ensures c.programName != "" && Links(programs, c.ctype, "")
    {
      assert !MissingOperand(c);
    }
  }

  /** The mapper's ERROR check sees the raw operand, so a program name made of colons passes it and
      still leaves the generated call undeclared. */
  lemma ColonEscapesTheCheck(p: Program)
    requires p.commands == [Command(LINK, "", "", ":", "", "", "", "", "", "")]
    ensures NoErrors([p]) && !ClientClosed([p])
  {
    hide ClientClosed;
    var c := p.commands[0];
    assert ValueName(c.programName) == "";
    assert [p][0] == p && p in [p] && c in p.commands && IsLink(c);
    assert Links([p], LINK, "");
    ClientCallsDeclared([p]);
    forall other | Links([p], LINK, other) ensures other == "" {
      var q, d :| q in [p] && d in q.commands && IsLink(d) && d.ctype == LINK && ValueName(d.programName) == other;
      assert d == c;
    }
  }

  lemma SameMethodExactly(t: Target, u: Target)
    ensures t.MethodName() == u.MethodName() <==> t.kind == u.kind && NameParts(t.program) == NameParts(u.program)
  {
    hide Pascal, NameParts;
    SameNameExactly(t.program, u.program);
  }

  /** The client interface declares no method twice exactly when no two programs linked in the same way
      share the lower-cased tokens a Java name keeps. */
  lemma ClientMethodsDistinct(services: seq<Service>, targets: seq<Target>)
    requires forall t :: t in targets <==> HasTarget(services, t)
    requires forall i, j :: 0 <= i < j < |targets| ==> targets[i] != targets[j]
    ensures (forall i, j :: 0 <= i < j < |targets| ==> targets[i].MethodName() != targets[j].MethodName()) <==>
      forall t, u :: HasTarget(services, t) && HasTarget(services, u) && t.kind == u.kind && t.program != u.program ==>
        NameParts(t.program) != NameParts(u.program)
  {
    hide HasTarget, Target.MethodName, NameParts;
    if forall i, j :: 0 <= i < j < |targets| ==> targets[i].MethodName() != targets[j].MethodName() {
      forall t, u | HasTarget(services, t) && HasTarget(services, u) && t.kind == u.kind && t.program != u.program
        ensures NameParts(t.program) != NameParts(u.program)
      {
        var i :| 0 <= i < |targets| && targets[i] == t;
        var j :| 0 <= j < |targets| && targets[j] == u;
        SameMethodExactly(t, u);
        assert i < j || j < i;
      }
    } else {
      var i, j :| 0 <= i < j < |targets| && targets[i].MethodName() == targets[j].MethodName();
      assert targets[i] in targets && targets[j] in targets;
      SameMethodExactly(targets[i], targets[j]);
    }
  }

  /** Programs linked as `A-B` and as `A_B` get one method twice, without an ERROR. */
  lemma HyphenAndUnderscoreCollide(p: Program)
    requires p.commands ==
      [Command(LINK, "", "", "A-B", "", "", "", "", "", ""), Command(LINK, "", "", "A_B", "", "", "", "", "", "")]
    ensures var services := ServicesOf([p]); var t, u := Target(LINK, "A-B"), Target(LINK, "A_B");
      NoErrors([p]) && HasTarget(services, t) && HasTarget(services, u) && t != u && t.MethodName() == u.MethodName()
  {
    hide Pascal, HasTarget, ServicesOf;
    SeparatorsCollide();
    var c, d := p.commands[0], p.commands[1];
    assert [p][0] == p && p in [p] && c in p.commands && d in p.commands && IsLink(c) && IsLink(d);
    assert ValueName(c.programName) == "A-B" && ValueName(d.programName) == "A_B";
    assert Links([p], LINK, "A-B") && Links([p], LINK, "A_B");
    TargetsAreLinks([p], Target(LINK, "A-B"));
    TargetsAreLinks([p], Target(LINK, "A_B"));
    assert "A-B"[1] != "A_B"[1];
  }
}
