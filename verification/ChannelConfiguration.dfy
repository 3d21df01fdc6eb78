/** The mapping between model variables and the ports of channels, and the source of port
    identifiers that all mappings share. */
module ChannelConfiguration {
  import opened Fmi
  import opened ChannelRegistry
  import PredictorRuns
  import OneStepRuns

  /** Configuration entries count from zero up to the first gap. */
  type Tree<T> = map<nat, T>

  function Entries<T>(tree: Tree<T>, i: nat): (r: seq<T>)
    ensures i + |r| !in tree
    ensures forall j :: i <= j < i + |r| ==> j in tree && r[j - i] == tree[j]
    decreases |tree.Keys - Below(tree, i)|
  {
    if i in tree then
      assert tree.Keys - Below(tree, i) == tree.Keys - Below(tree, i + 1) + {i};
      [tree[i]] + Entries(tree, i + 1)
    else []
  }

  function Below<T>(tree: Tree<T>, i: nat): set<nat> {
    set j | j in tree && j < i
  }

  function Channels(prop: Tree<Tree<VariableProp>>): (r: seq<seq<VariableProp>>)
    ensures |r| == |Entries(prop, 0)|
  {
    var trees := Entries(prop, 0);
    seq(|trees|, c requires 0 <= c < |trees| => Entries(trees[c], 0))
  }

  lemma ChannelIsThere(prop: Tree<Tree<VariableProp>>, n: nat)
    requires n <= |Channels(prop)|
    ensures n in prop <==> n < |Channels(prop)|
    ensures n in prop ==> Channels(prop)[n] == Entries(prop[n], 0)
  {
  }

  function ForEachType<T>(value: T): (m: map<FmiType, T>)
    ensures forall kind: FmiType :: kind in m && m[kind] == value
  {
    TypesAreListed();
    map kind: FmiType | kind in ALL_TYPES :: value
  }

  lemma TypesAreListed()
    ensures forall kind: FmiType :: kind in ALL_TYPES
  {
    forall kind: FmiType
      ensures kind in ALL_TYPES
    {
      match kind
      case FmiReal => assert ALL_TYPES[0] == kind;
      case FmiInteger => assert ALL_TYPES[1] == kind;
      case FmiBoolean => assert ALL_TYPES[2] == kind;
      case FmiString => assert ALL_TYPES[3] == kind;
      case FmiUnknown => assert ALL_TYPES[4] == kind;
    }
  }

  class PortIDDrawer {
    var nextPortID: map<FmiType, nat>

    predicate Valid()
      reads this
    {
      forall kind: FmiType :: kind in nextPortID
    }

    constructor ()
      ensures Valid() && forall kind: FmiType :: nextPortID[kind] == 0
    {
      nextPortID := ForEachType(0);
    }

    method GetNextPortID(kind: FmiType) returns (id: PortID)
      requires Valid()
      modifies this
      ensures Valid() && id == PortID(kind, old(nextPortID)[kind])
      ensures nextPortID == old(nextPortID)[kind := old(nextPortID)[kind] + 1]
    {
      id := PortID(kind, nextPortID[kind]);
      nextPortID := nextPortID[kind := nextPortID[kind] + 1];
    }
  }

  function Zip(names: seq<string>, ids: seq<PortID>): (entries: seq<Entry>)
    requires |names| == |ids|
    ensures |entries| == |names|
  {
    seq(|names|, i requires 0 <= i < |names| => Entry(names[i], ids[i]))
  }

  lemma KnownStays(reg: Registry, kind: FmiType)
    requires kind in reg
    ensures reg[kind := TableOf(reg, kind)] == reg
  {
  }

  predicate AreParallel(names: map<FmiType, seq<string>>, ids: map<FmiType, seq<PortID>>) {
    forall kind: FmiType ::
      && kind in names && kind in ids && |names[kind]| == |ids[kind]|
      && forall i :: 0 <= i < |ids[kind]| ==> 0 <= ids[kind][i].nr
  }

  function Tables(names: map<FmiType, seq<string>>, ids: map<FmiType, seq<PortID>>,
                  next: map<FmiType, nat>): Registry
    requires AreParallel(names, ids) && forall kind: FmiType :: kind in next
  {
    map kind: FmiType | kind in names :: Table(Zip(names[kind], ids[kind]), next[kind])
  }

  lemma TablesOneMore(names: map<FmiType, seq<string>>, ids: map<FmiType, seq<PortID>>, next: map<FmiType, nat>,
                      kind: FmiType, name: string)
    requires AreParallel(names, ids) && forall kind: FmiType :: kind in next
    ensures var id := PortID(kind, next[kind]);
            var (names', ids') := (names[kind := names[kind] + [name]], ids[kind := ids[kind] + [id]]);
            && AreParallel(names', ids')
            && Tables(names', ids', next[kind := next[kind] + 1])
            == Tables(names, ids, next)[kind := Table(Zip(names[kind], ids[kind]) + [Entry(name, id)], next[kind] + 1)]
  {
    var id := PortID(kind, next[kind]);
    assert Zip(names[kind] + [name], ids[kind] + [id]) == Zip(names[kind], ids[kind]) + [Entry(name, id)];
  }

  class ChannelMapping {
    const portIDSource: PortIDDrawer
    var variableNames: map<FmiType, seq<string>>
    var variableIDs: map<FmiType, seq<PortID>>
    var channels: seq<seq<PortID>>

    /** Names and identifiers are parallel. */
    predicate Valid()
      reads this, portIDSource
    {
      portIDSource.Valid() && AreParallel(variableNames, variableIDs)
    }

    function Registry(): Registry
      reads this, portIDSource
      requires Valid()
    {
      Tables(variableNames, variableIDs, portIDSource.nextPortID)
    }

    function IDSet(): set<PortID>
      reads this
    {
      set kind, id | kind in variableIDs && id in variableIDs[kind] :: id
    }

    lemma IDSetIsRegistered()
      requires Valid()
      ensures IDSet() == IDs(Registry()) && NextOf(Registry()) == portIDSource.nextPortID
    {
      var reg := Registry();
      forall id | id in IDSet()
        ensures id in IDs(reg)
      {
        var kind :| kind in variableIDs && id in variableIDs[kind];
        var i :| 0 <= i < |variableIDs[kind]| && variableIDs[kind][i] == id;
        assert reg[kind].entries[i] == Entry(variableNames[kind][i], id);
      }
      forall id | id in IDs(reg)
        ensures id in IDSet()
      {
        var kind, entry :| kind in reg && entry in reg[kind].entries && entry.id == id;
        var i :| 0 <= i < |reg[kind].entries| && reg[kind].entries[i] == entry;
        assert variableIDs[kind][i] == id;
        assert kind in variableIDs && id in variableIDs[kind];
      }
    }

    constructor (portIDSource: PortIDDrawer)
      requires portIDSource.Valid()
      ensures Valid() && this.portIDSource == portIDSource && channels == []
      ensures Registry() == Fresh(portIDSource.nextPortID)
    {
      this.portIDSource := portIDSource;
      variableNames := ForEachType([]);
      variableIDs := ForEachType([]);
      channels := [];
    }

    method GetID(name: string, kind: FmiType) returns (id: PortID)
      requires Valid()
      ensures match Lookup(TableOf(Registry(), kind).entries, name, 0)
              case Some(known) => id == known && id.nr >= 0
              case None => id == PortID(FmiUnknown, -1)
    {
      ghost var entries := TableOf(Registry(), kind).entries;
      var i := 0;
      while i < |variableNames[kind]|
        invariant 0 <= i <= |variableNames[kind]|
        invariant Lookup(entries, name, 0) == Lookup(entries, name, i)
      {
        if variableNames[kind][i] == name {
          return variableIDs[kind][i];
        }
        i := i + 1;
      }
      id := PortID(FmiUnknown, -1);
    }

    method Resolve(name: string, kind: FmiType) returns (id: PortID)
      requires Valid()
      modifies this`variableNames, this`variableIDs, portIDSource
      ensures Valid() && id == Register(old(Registry()), name, kind).1
      ensures Registry() == Register(old(Registry()), name, kind).0
    {
      id := GetID(name, kind);
      if id.nr < 0 {
        id := Draw(name, kind);
      } else {
        KnownStays(Registry(), kind);
      }
    }

    method Draw(name: string, kind: FmiType) returns (id: PortID)
      requires Valid()
      modifies this`variableNames, this`variableIDs, portIDSource
      ensures Valid()
      ensures var t := TableOf(old(Registry()), kind);
              && id == PortID(kind, t.next)
              && Registry() == old(Registry())[kind := Table(t.entries + [Entry(name, id)], t.next + 1)]
    {
      TablesOneMore(variableNames, variableIDs, portIDSource.nextPortID, kind, name);
      assert TableOf(Registry(), kind)
          == Table(Zip(variableNames[kind], variableIDs[kind]), portIDSource.nextPortID[kind]);
      id := portIDSource.GetNextPortID(kind);
      variableNames := variableNames[kind := variableNames[kind] + [name]];
      variableIDs := variableIDs[kind := variableIDs[kind] + [id]];
    }

    /** Refuses a variable without a name or with a type code that does not exist. */
    method AddVariable(prop: VariableProp) returns (id: Option<PortID>)
      requires Valid()
      modifies this`variableNames, this`variableIDs, portIDSource
      ensures Valid() && (id.Some? <==> IsAccepted(prop))
      ensures id.None? ==> Registry() == old(Registry())
      ensures id.Some? ==> (Registry(), id.value) == Register(old(Registry()), prop.name, KindOf(prop))
    {
      var kind := KindOfCode(prop.code);
      if prop.name == "" || kind.None? {
        return None;
      }
      var known := Resolve(prop.name, kind.value);
      id := Some(known);
    }

    /** Returns no ports if the configuration is invalid. */
    method AddVariables(channelProp: Tree<VariableProp>) returns (ports: Option<seq<PortID>>)
      requires Valid()
      modifies this`variableNames, this`variableIDs, portIDSource
      ensures Valid()
      ensures match ChannelRegistry.AddVariables(old(Registry()), Entries(channelProp, 0))
              case Bound(reg, result) => Registry() == reg && ports == Some(result)
              case Refused(reg) => Registry() == reg && ports == None
    {
      ghost var (reg, entries) := (Registry(), Entries(channelProp, 0));
      ghost var now := reg;
      var list := [];
      var variableNr := 0;
      while variableNr in channelProp
        invariant 0 <= variableNr <= |entries| && Valid() && Registry() == now
        invariant ChannelRegistry.AddVariables(reg, entries[..variableNr]) == Bound(now, list)
        decreases |entries| - variableNr
      {
        ghost var before := now;
        var id := AddVariable(channelProp[variableNr]);
        if id.None? {
          VariableRefused(reg, entries, variableNr, before, list);
          return None;
        }
        now := Registry();
        VariableBound(reg, entries, variableNr, before, list, now, id.value);
        list := list + [id.value];
        variableNr := variableNr + 1;
      }
      assert entries[..variableNr] == entries;
      ports := Some(list);
    }

    /** Returns whether the configuration is valid. */
    method AddChannels(prop: Tree<Tree<VariableProp>>) returns (ok: bool)
      requires Valid() && channels == []
      modifies this, portIDSource
      ensures Valid()
      ensures match ChannelRegistry.AddChannels(old(Registry()), Channels(prop))
              case Bound(reg, result) => Registry() == reg && ok && channels == result
              case Refused(reg) => Registry() == reg && !ok
    {
      ghost var (reg, configured) := (Registry(), Channels(prop));
      var channelNr := 0;
      ChannelIsThere(prop, 0);
      while channelNr in prop
        invariant 0 <= channelNr <= |configured| && Valid()
        invariant channelNr in prop <==> channelNr < |configured|
        invariant ChannelRegistry.AddChannels(reg, configured[..channelNr]) == Bound(Registry(), channels)
        decreases |configured| - channelNr
      {
        ChannelsOneMore(reg, configured, channelNr);
        ChannelIsThere(prop, channelNr);
        ChannelIsThere(prop, channelNr + 1);
        var ports := AddVariables(prop[channelNr]);
        if ports.None? {
          MappingRefusalIsFinal(reg, configured, channelNr + 1);
          return false;
        }
        channels := channels + [ports.value];
        channelNr := channelNr + 1;
      }
      assert configured[..channelNr] == configured;
      ok := true;
    }

    /** The first type that has the name decides; an unknown name is an error. */
    method GetPortID(name: string) returns (id: Option<PortID>)
      requires Valid()
      ensures id == FirstOf(Registry(), name, 0)
    {
      var i := 0;
      while i < |ALL_TYPES|
        invariant 0 <= i <= |ALL_TYPES|
        invariant FirstOf(Registry(), name, 0) == FirstOf(Registry(), name, i)
      {
        var known := GetID(name, ALL_TYPES[i]);
        if known.nr >= 0 {
          return Some(known);
        }
        i := i + 1;
      }
      id := None;
    }
  }

  const ALL_TYPES: seq<FmiType> := [FmiReal, FmiInteger, FmiBoolean, FmiString, FmiUnknown]

  function FirstOf(reg: Registry, name: string, i: nat): Option<PortID>
    requires i <= |ALL_TYPES|
    decreases |ALL_TYPES| - i
  {
    if i == |ALL_TYPES| then None
    else
      var known := Lookup(TableOf(reg, ALL_TYPES[i]).entries, name, 0);
      if known.Some? then known else FirstOf(reg, name, i + 1)
  }

  lemma VariableBound(reg: Registry, variables: seq<VariableProp>, n: nat, before: Registry, ports: seq<PortID>,
                      after: Registry, id: PortID)
    requires n < |variables| && ChannelRegistry.AddVariables(reg, variables[..n]) == Bound(before, ports)
    requires IsAccepted(variables[n]) && (after, id) == Register(before, variables[n].name, KindOf(variables[n]))
    ensures ChannelRegistry.AddVariables(reg, variables[..n + 1]) == Bound(after, ports + [id])
  {
    assert variables[..n + 1][..n] == variables[..n];
  }

  lemma VariableRefused(reg: Registry, variables: seq<VariableProp>, n: nat, before: Registry, ports: seq<PortID>)
    requires n < |variables| && ChannelRegistry.AddVariables(reg, variables[..n]) == Bound(before, ports)
    requires !IsAccepted(variables[n])
    ensures ChannelRegistry.AddVariables(reg, variables) == Refused(before)
  {
    assert variables[..n + 1][..n] == variables[..n];
    RefusalIsFinal(reg, variables, n + 1);
  }

  lemma ChannelsOneMore(reg: Registry, channels: seq<seq<VariableProp>>, n: nat)
    requires n < |channels|
    ensures var (before, r) := (ChannelRegistry.AddChannels(reg, channels[..n]),
                                ChannelRegistry.AddChannels(reg, channels[..n + 1]));
            before.Bound? ==>
              match ChannelRegistry.AddVariables(before.reg, channels[n])
              case Refused(after) => r == Refused(after)
              case Bound(after, ports) => r == Bound(after, before.result + [ports])
  {
    assert channels[..n + 1][..n] == channels[..n];
  }

  lemma {:induction false} RefusalIsFinal(reg: Registry, variables: seq<VariableProp>, n: nat)
    requires n <= |variables| && ChannelRegistry.AddVariables(reg, variables[..n]).Refused?
    ensures ChannelRegistry.AddVariables(reg, variables) == ChannelRegistry.AddVariables(reg, variables[..n])
    decreases |variables| - n
  {
    if n < |variables| {
      assert variables[..n + 1][..n] == variables[..n];
      RefusalIsFinal(reg, variables, n + 1);
    } else {
      assert variables[..n] == variables;
    }
  }

  lemma {:induction false} MappingRefusalIsFinal(reg: Registry, channels: seq<seq<VariableProp>>, n: nat)
    requires n <= |channels| && ChannelRegistry.AddChannels(reg, channels[..n]).Refused?
    ensures ChannelRegistry.AddChannels(reg, channels) == ChannelRegistry.AddChannels(reg, channels[..n])
    decreases |channels| - n
  {
    if n < |channels| {
      assert channels[..n + 1][..n] == channels[..n];
      MappingRefusalIsFinal(reg, channels, n + 1);
    } else {
      assert channels[..n] == channels;
    }
  }

  // ----- inputs and outputs

  /** All identifiers of a mapping. */
  function IDs(reg: Registry): set<PortID> {
    set kind, entry | kind in reg && entry in reg[kind].entries :: entry.id
  }

  /** Two mappings that share a source, built in either order. */
  predicate AreMappings(next: map<FmiType, nat>, first: seq<seq<VariableProp>>, second: seq<seq<VariableProp>>,
                        inputs: set<PortID>, outputs: set<PortID>)
  {
    var a := ChannelRegistry.AddChannels(Fresh(next), first).reg;
    var b := ChannelRegistry.AddChannels(Fresh(NextOf(a)), second).reg;
    (inputs == IDs(a) && outputs == IDs(b)) || (inputs == IDs(b) && outputs == IDs(a))
  }

  /** The mappings fulfil what both predictors expect of their inputs and outputs: no output
      event is ever taken for an input. */
  lemma MappingsAreWellPosed(next: map<FmiType, nat>, first: seq<seq<VariableProp>>, second: seq<seq<VariableProp>>,
                             u: PredictorRuns.Setup, v: OneStepRuns.Setup, outputs: set<PortID>)
    requires AreMappings(next, first, second, u.inputs, u.outputs) && 0.0 <= u.start
    requires AreMappings(next, first, second, v.inputs, outputs)
    requires |v.outputs| == |v.ids| && forall i :: 0 <= i < |v.ids| ==> v.ids[i] in outputs
    ensures PredictorRuns.WellPosed(u) && OneStepRuns.WellPosed(v)
  {
    DisjointIDs(next, first, second);
  }

  lemma DisjointIDs(next: map<FmiType, nat>, first: seq<seq<VariableProp>>, second: seq<seq<VariableProp>>)
    ensures var a := ChannelRegistry.AddChannels(Fresh(next), first).reg;
            IDs(a) !! IDs(ChannelRegistry.AddChannels(Fresh(NextOf(a)), second).reg)
  {
    var a := ChannelRegistry.AddChannels(Fresh(next), first).reg;
    var b := ChannelRegistry.AddChannels(Fresh(NextOf(a)), second).reg;
    forall id | id in IDs(a) && id in IDs(b)
      ensures false
    {
      SharedSourceSeparates(next, first, second, id);
      IDsAreHad(a, id);
      IDsAreHad(b, id);
    }
  }

  lemma IDsAreHad(reg: Registry, id: PortID)
    ensures id in IDs(reg) <==> HasID(reg, id)
  {
    if HasID(reg, id) {
      var kind, entry :| entry in TableOf(reg, kind).entries && entry.id == id;
      assert kind in reg && entry in reg[kind].entries;
    }
    if id in IDs(reg) {
      var kind, entry :| kind in reg && entry in reg[kind].entries && entry.id == id;
      assert entry in TableOf(reg, kind).entries;
    }
  }

  /** Builds the mappings of the inputs and of the outputs from one source: even if one is
      refused, they have no identifier in common. */
  method SettleMappings(source: PortIDDrawer, inputs: Tree<Tree<VariableProp>>, outputs: Tree<Tree<VariableProp>>)
    returns (input: ChannelMapping, output: ChannelMapping, ok: bool)
    requires source.Valid()
    modifies source
    ensures input.Valid() && output.Valid() && input.IDSet() !! output.IDSet()
    ensures var a := ChannelRegistry.AddChannels(Fresh(old(source.nextPortID)), Channels(inputs));
            var b := ChannelRegistry.AddChannels(Fresh(NextOf(a.reg)), Channels(outputs));
            && input.IDSet() == IDs(a.reg) && output.IDSet() == IDs(b.reg)
            && (ok <==> a.Bound? && b.Bound?)
            && (ok ==> input.channels == a.result && output.channels == b.result)
  {
    ghost var next := source.nextPortID;
    input := new ChannelMapping(source);
    var inputOk := input.AddChannels(inputs);
    input.IDSetIsRegistered();
    ghost var a := input.Registry();
    output := new ChannelMapping(source);
    var outputOk := output.AddChannels(outputs);
    output.IDSetIsRegistered();
    ok := inputOk && outputOk;
    DisjointIDs(next, Channels(inputs), Channels(outputs));
  }
}
