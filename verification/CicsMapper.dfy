/** engine/cics/mapper.py: one command list is split into a flow and four grouped lists. */
module CicsMapper {
  import opened CicsModel

  // ---- what one command contributes to each list ----

  function IosOf(c: Command): seq<Io> {
    if Classify(c.ctype) != (Mapped, TerminalIo) then []
    else [Io(c.ctype, c.mapName, ValueName(FirstNonEmpty(c.intoField, c.fromField)), ValueName(c.lengthField),
      c.rawText)]
  }

  function InteractionsOf(c: Command): seq<Interaction> {
    if Classify(c.ctype) != (Mapped, ProgramInteraction) then []
    else [Interaction(c.ctype, ValueName(c.programName), ValueName(c.commarea), c.rawText)]
  }

  function AccessesOf(c: Command): seq<Access> {
    if Classify(c.ctype) != (Mapped, ResourceAccess) then []
    else [Access(c.ctype, IsQueueCommand(c.ctype), ValueName(c.resourceName), c.rawText)]
  }

  /** `_map_boundary`; RETURN is recorded here as well as among the interactions. */
  function BoundariesOf(c: Command): seq<Boundary> {
    if c.ctype !in {SYNCPOINT, ABEND, RETURN} then []
    else
      var kind := if c.ctype == SYNCPOINT then Commit else if c.ctype == ABEND then Rollback else PseudoConversational;
      [Boundary(kind, ValueName(c.transactionId), ValueName(c.commarea), c.rawText)]
  }

  function StepOf(c: Command, i: nat): FlowStep {
    FlowStep(i, Classify(c.ctype).0, c.ctype, c.rawText)
  }

  /** The contributions of a command list, in source order. */
  function Collect<T>(contribution: Command -> seq<T>, commands: seq<Command>): seq<T> {
    if commands == [] then []
    else Collect(contribution, commands[..|commands| - 1]) + contribution(commands[|commands| - 1])
  }

  function FlowOf(commands: seq<Command>): seq<FlowStep> {
    seq(|commands|, i requires 0 <= i < |commands| => StepOf(commands[i], i))
  }

  /** The service `map` builds for one program. */
  function ServiceOf(program: string, commands: seq<Command>): Service {
    Service(program, FlowOf(commands), Collect(IosOf, commands), Collect(InteractionsOf, commands),
            Collect(AccessesOf, commands), Collect(BoundariesOf, commands))
  }

  lemma CollectOne<T>(contribution: Command -> seq<T>, commands: seq<Command>, i: nat)
    requires i < |commands|
    ensures Collect(contribution, commands[..i + 1]) == Collect(contribution, commands[..i]) + contribution(commands[i])
  {
    assert commands[..i + 1][..i] == commands[..i];
  }

  lemma EmptyCollect<T>(contribution: Command -> seq<T>)
    ensures Collect(contribution, []) == []
  {
  }

  /** The elements of a command sit right after those of the commands before it. */
  lemma {:induction false} CollectPrefix<T>(contribution: Command -> seq<T>, commands: seq<Command>, i: nat)
    requires i <= |commands|
    ensures Collect(contribution, commands[..i]) <= Collect(contribution, commands)
    decreases |commands|
  {
    if i == |commands| {
      assert commands[..i] == commands;
    } else {
      CollectPrefix(contribution, commands[..|commands| - 1], i);
      assert commands[..|commands| - 1][..i] == commands[..i];
    }
  }

  lemma {:induction false} CollectMember<T>(contribution: Command -> seq<T>, commands: seq<Command>, x: T)
    ensures x in Collect(contribution, commands) <==> exists c :: c in commands && x in contribution(c)
  {
    if commands != [] {
      var n := |commands| - 1;
      CollectMember(contribution, commands[..n], x);
      assert commands == commands[..n] + [commands[n]];
    }
  }

  // ---- what the elements of the lists say of their command ----

  /** A terminal I/O names the map, the data behind the colons of INTO, or of FROM without one, and the
      length. */
  lemma IosSay(c: Command, x: Io)
    requires x in IosOf(c)
    ensures x.kind == c.ctype && x.mapName == c.mapName && x.rawText == c.rawText
      && Behind(c.lengthField, x.lengthField)
    ensures Behind(if c.intoField == "" then c.fromField else c.intoField, x.dataField)
  {
    hide Behind, ValueName, Classify;
    ValueNameIsBehind(c.lengthField);
    ValueNameIsBehind(FirstNonEmpty(c.intoField, c.fromField));
  }

  lemma InteractionsSay(c: Command, x: Interaction)
    requires x in InteractionsOf(c)
    ensures x.kind == c.ctype && x.rawText == c.rawText
    ensures Behind(c.programName, x.program) && Behind(c.commarea, x.commarea)
  {
    hide Behind, ValueName, Classify;
    ValueNameIsBehind(c.programName);
    ValueNameIsBehind(c.commarea);
  }

  lemma AccessesSay(c: Command, x: Access)
    requires x in AccessesOf(c)
    ensures x.operation == c.ctype && x.rawText == c.rawText && Behind(c.resourceName, x.resource)
    ensures x.isQueue <==> c.ctype in {WRITEQ, READQ, DELETEQ}
  {
    hide Behind, ValueName, Classify;
    ValueNameIsBehind(c.resourceName);
  }

  lemma BoundariesSay(c: Command, x: Boundary)
    requires x in BoundariesOf(c)
    ensures x.rawText == c.rawText && Behind(c.transactionId, x.transactionId) && Behind(c.commarea, x.commarea)
    ensures x.kind == if c.ctype == SYNCPOINT then Commit else if c.ctype == ABEND then Rollback
      else PseudoConversational
  {
    hide Behind, ValueName, Classify;
    ValueNameIsBehind(c.commarea);
    ValueNameIsBehind(c.transactionId);
  }

  /** The flow has one step for each command, at its place, with its kind, its text and its status. */
  lemma FlowSays(program: string, commands: seq<Command>)
    ensures var s := ServiceOf(program, commands);
      && s.sourceProgram == program && |s.flow| == |commands|
      && forall i :: 0 <= i < |commands| ==>
           && s.flow[i].index == i && s.flow[i].kind == commands[i].ctype && s.flow[i].rawText == commands[i].rawText
           && (s.flow[i].status == ExplicitOnly <==> commands[i].ctype in {HANDLE_CONDITION, HANDLE_AID, ASSIGN})
           && (s.flow[i].status == Unsupported <==>
                commands[i].ctype in {ALLOCATE, FREE, HOLD, RELEASE, SET, IGNORE, POP, PUSH})
  {
    hide Collect, IosOf, InteractionsOf, AccessesOf, BoundariesOf;
  }

  lemma ContributionsByCategory(c: Command)
    ensures var (status, category) := Classify(c.ctype);
      && (status == Unsupported ==> category == Carried)
      && (category == TerminalIo <==> IosOf(c) != [])
      && (category == ProgramInteraction <==> InteractionsOf(c) != [])
      && (category == ResourceAccess <==> AccessesOf(c) != [])
      && (category == BoundaryOnly || c.ctype == RETURN <==> BoundariesOf(c) != [])
      && (c.ctype == RETURN ==> category == ProgramInteraction)
  {
  }

  /** `CicsSpringMapper.map`. */
  method Map(program: string, commands: seq<Command>) returns (service: Service)
    ensures service == ServiceOf(program, commands)
  {
    hide Classify, IosOf, InteractionsOf, AccessesOf, BoundariesOf, Collect;
    var flow, ios, interactions, accesses, boundaries := [], [], [], [], [];
    EmptyCollect(IosOf);
    EmptyCollect(InteractionsOf);
    EmptyCollect(AccessesOf);
    EmptyCollect(BoundariesOf);
    for i := 0 to |commands|
      invariant flow == FlowOf(commands[..i])
      invariant ios == Collect(IosOf, commands[..i])
      invariant interactions == Collect(InteractionsOf, commands[..i])
      invariant accesses == Collect(AccessesOf, commands[..i])
      invariant boundaries == Collect(BoundariesOf, commands[..i])
    {
      var c := commands[i];
      var (status, category) := Classify(c.ctype);
      CollectOne(IosOf, commands, i);
      CollectOne(InteractionsOf, commands, i);
      CollectOne(AccessesOf, commands, i);
      CollectOne(BoundariesOf, commands, i);
      ContributionsByCategory(c);
      if status == Unsupported {
      } else if category == TerminalIo {
        ios := ios + IosOf(c);
      } else if category == ProgramInteraction {
        interactions := interactions + InteractionsOf(c);
        if c.ctype == RETURN {
          boundaries := boundaries + BoundariesOf(c);
        }
      } else if category == ResourceAccess {
        accesses := accesses + AccessesOf(c);
      } else if category == BoundaryOnly {
        boundaries := boundaries + BoundariesOf(c);
      }
      flow := flow + [StepOf(c, i)];
    }
    assert commands[..|commands|] == commands;
    service := Service(program, flow, ios, interactions, accesses, boundaries);
  }

  // ---- several programs ----

  datatype Program = Program(id: string, commands: seq<Command>)

  function ServicesOf(programs: seq<Program>): seq<Service> {
    seq(|programs|, i requires 0 <= i < |programs| => ServiceOf(programs[i].id, programs[i].commands))
  }

  /** `CicsSpringMapper.merge`, the services of the merged application. */
  method Merge(programs: seq<Program>) returns (services: seq<Service>)
    ensures services == ServicesOf(programs)
  {
    services := [];
    for i := 0 to |programs|
      invariant services == ServicesOf(programs[..i])
    {
      var service := Map(programs[i].id, programs[i].commands);
      services := services + [service];
    }
    assert programs[..|programs|] == programs;
  }

  // ---- validation ----

  datatype Severity = WARNING | ERROR

  datatype Issue = Issue(severity: Severity, step: nat)

  predicate MissingOperand(c: Command) {
    (IsFileCommand(c.ctype) && c.resourceName == "") || (c.ctype in {LINK, XCTL} && c.programName == "")
  }

  predicate Questionable(commands: seq<Command>, i: nat) {
    if i < |commands| then
      (IsQueueCommand(commands[i].ctype) && commands[i].resourceName == "")
        || (commands[i].ctype == RETURN && i != |commands| - 1)
    else
      i == |commands| && commands != [] && commands[i - 1].ctype != RETURN
  }

  /** `_validate`.  The final warning, about a missing trailing RETURN, carries the step after the
      last command. */
  method Validate(commands: seq<Command>) returns (issues: seq<Issue>)
    ensures forall i: nat :: Issue(ERROR, i) in issues <==> i < |commands| && MissingOperand(commands[i])
    ensures forall i: nat :: Issue(WARNING, i) in issues <==> Questionable(commands, i)
  {
    issues := [];
    for i := 0 to |commands|
      invariant forall k: nat :: Issue(ERROR, k) in issues <==> k < i && MissingOperand(commands[k])
      invariant forall k: nat :: Issue(WARNING, k) in issues <==> k < i && Questionable(commands, k)
    {
      var c := commands[i];
      if IsFileCommand(c.ctype) && c.resourceName == "" {
        issues := issues + [Issue(ERROR, i)];
      }
      if IsQueueCommand(c.ctype) && c.resourceName == "" {
        issues := issues + [Issue(WARNING, i)];
      }
      if c.ctype in {LINK, XCTL} && c.programName == "" {
        issues := issues + [Issue(ERROR, i)];
      }
      if c.ctype == RETURN && i != |commands| - 1 {
        issues := issues + [Issue(WARNING, i)];
      }
    }
    if commands != [] && commands[|commands| - 1].ctype != RETURN {
      issues := issues + [Issue(WARNING, |commands|)];
    }
  }
}
