/** What the configuration of channels does to the variables that a mapping knows. */
module ChannelRegistry {
  import opened Fmi

  /** The name of a variable and its type code; the code is missing if there is none or if it
      is no number. */
  datatype VariableProp = VariableProp(name: string, code: Option<int>)

  datatype Entry = Entry(name: string, id: PortID)

  /** The variables of one type, and the number that is drawn next for it. */
  datatype Table = Table(entries: seq<Entry>, next: nat)

  type Registry = map<FmiType, Table>

  /** A refused configuration leaves behind what has been registered before. */
  datatype Outcome<+T> = Bound(reg: Registry, result: T) | Refused(reg: Registry)

  function TableOf(reg: Registry, kind: FmiType): Table {
    if kind in reg then reg[kind] else Table([], 0)
  }

  /** The identifier of the first entry with the name from index i on. */
  function Lookup(entries: seq<Entry>, name: string, i: nat): (r: Option<PortID>)
    requires i <= |entries|
    ensures match r
            case None => forall j :: i <= j < |entries| ==> entries[j].name != name
            case Some(id) => Entry(name, id) in entries
    decreases |entries| - i
  {
    if i == |entries| then None
    else if entries[i].name == name then Some(entries[i].id)
    else Lookup(entries, name, i + 1)
  }

  function KindOfCode(code: Option<int>): Option<FmiType> {
    match code
    case None => Some(FmiUnknown)
    case Some(n) =>
      if n == 0 then Some(FmiReal)
      else if n == 1 then Some(FmiInteger)
      else if n == 2 then Some(FmiBoolean)
      else if n == 3 then Some(FmiString)
      else if n == 4 then Some(FmiUnknown)
      else None
  }

  predicate IsAccepted(prop: VariableProp) {
    prop.name != "" && KindOfCode(prop.code).Some?
  }

  function KindOf(prop: VariableProp): FmiType
    requires IsAccepted(prop)
  {
    KindOfCode(prop.code).value
  }

  /** A variable that is not known yet gets the next number. */
  function Enter(t: Table, name: string, kind: FmiType): (Table, PortID) {
    match Lookup(t.entries, name, 0)
    case Some(id) => (t, id)
    case None =>
      var id := PortID(kind, t.next);
      (Table(t.entries + [Entry(name, id)], t.next + 1), id)
  }

  function Register(reg: Registry, name: string, kind: FmiType): (Registry, PortID) {
    var (t, id) := Enter(TableOf(reg, kind), name, kind);
    (reg[kind := t], id)
  }

  /** The ports of a channel. */
  function AddVariables(reg: Registry, variables: seq<VariableProp>): Outcome<seq<PortID>> {
    if variables == [] then Bound(reg, [])
    else
      var n := |variables| - 1;
      var before := AddVariables(reg, variables[..n]);
      if before.Refused? || !IsAccepted(variables[n]) then Refused(before.reg)
      else
        var (after, id) := Register(before.reg, variables[n].name, KindOf(variables[n]));
        Bound(after, before.result + [id])
  }

  /** The ports of all channels. */
  function AddChannels(reg: Registry, channels: seq<seq<VariableProp>>): Outcome<seq<seq<PortID>>> {
    if channels == [] then Bound(reg, [])
    else
      var n := |channels| - 1;
      var before := AddChannels(reg, channels[..n]);
      if before.Refused? then Refused(before.reg)
      else
        var channel := AddVariables(before.reg, channels[n]);
        if channel.Refused? then Refused(channel.reg) else Bound(channel.reg, before.result + [channel.result])
  }

  // ----- one table

  /** No name and no identifier occurs twice, and all identifiers have been drawn. */
  predicate IsTable(t: Table, kind: FmiType) {
    && (forall i, j :: 0 <= i < j < |t.entries| ==> t.entries[i].name != t.entries[j].name)
    && (forall i, j :: 0 <= i < j < |t.entries| ==> t.entries[i].id.nr < t.entries[j].id.nr)
    && (forall i :: 0 <= i < |t.entries| ==> t.entries[i].id.kind == kind && 0 <= t.entries[i].id.nr < t.next)
  }

  /** Known variables stay, and new ones have all the numbers that were drawn since. */
  predicate TableExtends(t: Table, later: Table, kind: FmiType) {
    && t.entries <= later.entries
    && later.next == t.next + |later.entries| - |t.entries|
    && forall j :: |t.entries| <= j < |later.entries| ==>
         later.entries[j].id == PortID(kind, t.next + j - |t.entries|)
  }

  lemma EnterKeepsTable(t: Table, name: string, kind: FmiType)
    ensures var (after, id) := Enter(t, name, kind);
            && TableExtends(t, after, kind) && Entry(name, id) in after.entries
            && (IsTable(t, kind) ==> IsTable(after, kind))
            && forall entry :: entry in after.entries ==> entry in t.entries || entry.name == name
  {
    var (after, id) := Enter(t, name, kind);
    if after != t {
      assert after.entries[|t.entries|] == Entry(name, id);
    }
  }

  lemma TableExtendsIsTransitive(a: Table, b: Table, c: Table, kind: FmiType)
    requires TableExtends(a, b, kind) && TableExtends(b, c, kind)
    ensures TableExtends(a, c, kind)
  {
  }

  // ----- one channel

  predicate AreAccepted(variables: seq<VariableProp>) {
    forall i :: 0 <= i < |variables| ==> IsAccepted(variables[i])
  }

  lemma RegisterExtends(reg: Registry, name: string, kind: FmiType, other: FmiType)
    ensures var (t, later) := (TableOf(reg, other), TableOf(Register(reg, name, kind).0, other));
            TableExtends(t, later, other) && (IsTable(t, other) ==> IsTable(later, other))
            && (forall entry :: entry in later.entries ==>
                  entry in t.entries || (entry.name == name && other == kind))
  {
    EnterKeepsTable(TableOf(reg, kind), name, kind);
  }

  lemma {:induction false} VariablesExtend(reg: Registry, variables: seq<VariableProp>, kind: FmiType)
    ensures var (t, later) := (TableOf(reg, kind), TableOf(AddVariables(reg, variables).reg, kind));
            TableExtends(t, later, kind) && (IsTable(t, kind) ==> IsTable(later, kind))
  {
    if variables != [] {
      var n := |variables| - 1;
      VariablesExtend(reg, variables[..n], kind);
      var before := AddVariables(reg, variables[..n]);
      if before.Bound? && IsAccepted(variables[n]) {
        RegisterExtends(before.reg, variables[n].name, KindOf(variables[n]), kind);
        TableExtendsIsTransitive(TableOf(reg, kind), TableOf(before.reg, kind),
                                 TableOf(AddVariables(reg, variables).reg, kind), kind);
      }
    }
  }

  lemma {:induction false} VariablesAreBound(reg: Registry, variables: seq<VariableProp>)
    ensures var r := AddVariables(reg, variables);
            (r.Bound? <==> AreAccepted(variables)) && (r.Bound? ==> |r.result| == |variables|)
  {
    if variables != [] {
      var n := |variables| - 1;
      VariablesAreBound(reg, variables[..n]);
      assert variables == variables[..n] + [variables[n]];
    }
  }

  /** The port has the identifier of the variable's name and type. */
  predicate IsResolved(reg: Registry, variable: VariableProp, id: PortID) {
    IsAccepted(variable) && Entry(variable.name, id) in TableOf(reg, KindOf(variable)).entries
  }

  lemma {:induction false} VariableIsResolved(reg: Registry, variables: seq<VariableProp>, i: nat)
    requires i < |variables| && AddVariables(reg, variables).Bound?
    ensures var r := AddVariables(reg, variables);
            |r.result| == |variables| && IsResolved(r.reg, variables[i], r.result[i])
    decreases |variables|
  {
    VariablesAreBound(reg, variables);
    var n := |variables| - 1;
    var before := AddVariables(reg, variables[..n]);
    VariablesAreBound(reg, variables[..n]);
    if i < n {
      VariableIsResolved(reg, variables[..n], i);
      RegisterExtends(before.reg, variables[n].name, KindOf(variables[n]), KindOf(variables[i]));
    } else {
      EnterKeepsTable(TableOf(before.reg, KindOf(variables[n])), variables[n].name, KindOf(variables[n]));
    }
  }

  predicate IsConfigured(variables: seq<VariableProp>, name: string, kind: FmiType) {
    exists i :: 0 <= i < |variables| && variables[i].name == name && KindOfCode(variables[i].code) == Some(kind)
  }

  lemma {:induction false} OnlyConfiguredVariables(
    reg: Registry, variables: seq<VariableProp>, kind: FmiType, entry: Entry)
    requires entry in TableOf(AddVariables(reg, variables).reg, kind).entries
    ensures entry in TableOf(reg, kind).entries || IsConfigured(variables, entry.name, kind)
  {
    if variables != [] {
      var n := |variables| - 1;
      var before := AddVariables(reg, variables[..n]);
      if entry in TableOf(before.reg, kind).entries {
        OnlyConfiguredVariables(reg, variables[..n], kind, entry);
        if i :| 0 <= i < n && variables[..n][i].name == entry.name && KindOfCode(variables[..n][i].code) == Some(kind) {
          assert variables[i].name == entry.name;
        }
      } else {
        RegisterExtends(before.reg, variables[n].name, KindOf(variables[n]), kind);
        assert variables[n].name == entry.name;
      }
    }
  }

  // ----- all channels

  lemma {:induction false} ChannelsExtend(reg: Registry, channels: seq<seq<VariableProp>>, kind: FmiType)
    ensures var (t, later) := (TableOf(reg, kind), TableOf(AddChannels(reg, channels).reg, kind));
            TableExtends(t, later, kind) && (IsTable(t, kind) ==> IsTable(later, kind))
  {
    if channels != [] {
      var n := |channels| - 1;
      ChannelsExtend(reg, channels[..n], kind);
      var before := AddChannels(reg, channels[..n]);
      if before.Bound? {
        VariablesExtend(before.reg, channels[n], kind);
        TableExtendsIsTransitive(TableOf(reg, kind), TableOf(before.reg, kind),
                                 TableOf(AddChannels(reg, channels).reg, kind), kind);
      }
    }
  }

  lemma {:induction false} ChannelsAreBound(reg: Registry, channels: seq<seq<VariableProp>>)
    ensures var r := AddChannels(reg, channels);
            && (r.Bound? <==> forall c :: 0 <= c < |channels| ==> AreAccepted(channels[c]))
            && (r.Bound? ==> |r.result| == |channels|)
  {
    if channels != [] {
      var n := |channels| - 1;
      ChannelsAreBound(reg, channels[..n]);
      VariablesAreBound(AddChannels(reg, channels[..n]).reg, channels[n]);
      assert channels == channels[..n] + [channels[n]];
    }
  }

  /** The mapping is refused if and only if a variable has no name or a type code that does
      not exist. */
  lemma RefusedMappings(reg: Registry, channels: seq<seq<VariableProp>>)
    ensures AddChannels(reg, channels).Bound?
       <==> forall c, i :: 0 <= c < |channels| && 0 <= i < |channels[c]| ==>
              channels[c][i].name != "" && (channels[c][i].code.Some? ==> 0 <= channels[c][i].code.value <= 4)
  {
    ChannelsAreBound(reg, channels);
    forall c | 0 <= c < |channels|
      ensures AreAccepted(channels[c]) <==>
                forall i :: 0 <= i < |channels[c]| ==>
                  channels[c][i].name != "" && (channels[c][i].code.Some? ==> 0 <= channels[c][i].code.value <= 4)
    {
    }
  }

  /** Every port of every channel has the identifier of its name and type. */
  lemma {:induction false} ChannelsAreResolved(reg: Registry, channels: seq<seq<VariableProp>>, c: nat, i: nat)
    requires AddChannels(reg, channels).Bound? && c < |channels| && i < |channels[c]|
    ensures var r := AddChannels(reg, channels);
            && |r.result| == |channels| && |r.result[c]| == |channels[c]|
            && IsResolved(r.reg, channels[c][i], r.result[c][i])
    decreases |channels|
  {
    ChannelsAreBound(reg, channels);
    var n := |channels| - 1;
    ChannelsAreBound(reg, channels[..n]);
    var before := AddChannels(reg, channels[..n]);
    if c < n {
      ChannelsAreResolved(reg, channels[..n], c, i);
      VariablesExtend(before.reg, channels[n], KindOf(channels[c][i]));
    } else {
      VariableIsResolved(before.reg, channels[n], i);
    }
  }

  lemma {:induction false} OnlyConfiguredChannels(
    reg: Registry, channels: seq<seq<VariableProp>>, kind: FmiType, entry: Entry)
    requires entry in TableOf(AddChannels(reg, channels).reg, kind).entries
    ensures entry in TableOf(reg, kind).entries
         || exists c :: 0 <= c < |channels| && IsConfigured(channels[c], entry.name, kind)
  {
    if channels != [] {
      var n := |channels| - 1;
      var before := AddChannels(reg, channels[..n]);
      if entry in TableOf(before.reg, kind).entries {
        OnlyConfiguredChannels(reg, channels[..n], kind, entry);
        if c :| 0 <= c < n && IsConfigured(channels[..n][c], entry.name, kind) {
          assert channels[c] == channels[..n][c];
        }
      } else {
        OnlyConfiguredVariables(before.reg, channels[n], kind, entry);
      }
    }
  }

  // ----- identifiers

  predicate IsRegistry(reg: Registry) {
    forall kind :: IsTable(TableOf(reg, kind), kind)
  }

  /** Two ports of a mapping have the same identifier if and only if their variables have the
      same name and the same type. */
  lemma IdentifiersAreUnique(reg: Registry, v: VariableProp, id: PortID, v': VariableProp, id': PortID)
    requires IsRegistry(reg) && IsResolved(reg, v, id) && IsResolved(reg, v', id')
    ensures id == id' <==> v.name == v'.name && KindOf(v) == KindOf(v')
  {
    var (t, t') := (TableOf(reg, KindOf(v)), TableOf(reg, KindOf(v')));
    assert IsTable(t, KindOf(v)) && IsTable(t', KindOf(v'));
    var j :| 0 <= j < |t.entries| && t.entries[j] == Entry(v.name, id);
    var j' :| 0 <= j' < |t'.entries| && t'.entries[j'] == Entry(v'.name, id');
  }

  /** A mapping without variables, and the numbers that its source draws next. */
  function Fresh(next: map<FmiType, nat>): Registry {
    map kind | kind in next :: Table([], next[kind])
  }

  function NextOf(reg: Registry): map<FmiType, nat> {
    map kind | kind in reg :: reg[kind].next
  }

  predicate HasID(reg: Registry, id: PortID) {
    exists kind, entry :: entry in TableOf(reg, kind).entries && entry.id == id
  }

  /** A mapping stays a registry, and no identifier of it belongs to one that is built later
      from the same source, even if either of them was refused half-way. */
  lemma SharedSourceSeparates(
    next: map<FmiType, nat>, first: seq<seq<VariableProp>>, second: seq<seq<VariableProp>>, id: PortID)
    ensures var a := AddChannels(Fresh(next), first).reg;
            var b := AddChannels(Fresh(NextOf(a)), second).reg;
            IsRegistry(a) && IsRegistry(b) && !(HasID(a, id) && HasID(b, id))
  {
    var a := AddChannels(Fresh(next), first).reg;
    var b := AddChannels(Fresh(NextOf(a)), second).reg;
    MappingIsRegistry(next, first);
    MappingIsRegistry(NextOf(a), second);
    if HasID(a, id) && HasID(b, id) {
      IdIsFiledUnderItsType(a, id);
      IdIsFiledUnderItsType(b, id);
      ChannelsExtend(Fresh(NextOf(a)), second, id.kind);
      assert IsTable(TableOf(a, id.kind), id.kind);
      SeparateTables(TableOf(a, id.kind), TableOf(b, id.kind), id);
    }
  }

  lemma MappingIsRegistry(next: map<FmiType, nat>, channels: seq<seq<VariableProp>>)
    ensures IsRegistry(AddChannels(Fresh(next), channels).reg)
  {
    forall kind
      ensures IsTable(TableOf(AddChannels(Fresh(next), channels).reg, kind), kind)
    {
      ChannelsExtend(Fresh(next), channels, kind);
    }
  }

  /** The type of a port is the one that the code of its variable stands for. */
  lemma PortsHaveConfiguredTypes(next: map<FmiType, nat>, channels: seq<seq<VariableProp>>, c: nat, i: nat)
    requires AddChannels(Fresh(next), channels).Bound? && c < |channels| && i < |channels[c]|
    ensures var ports := AddChannels(Fresh(next), channels).result;
            && |ports| == |channels| && |ports[c]| == |channels[c]|
            && var (code, kind) := (channels[c][i].code, ports[c][i].kind);
            && (kind == FmiReal <==> code == Some(0))
            && (kind == FmiInteger <==> code == Some(1))
            && (kind == FmiBoolean <==> code == Some(2))
            && (kind == FmiString <==> code == Some(3))
            && (kind == FmiUnknown <==> code == Some(4) || code == None)
  {
    var r := AddChannels(Fresh(next), channels);
    ChannelsAreResolved(Fresh(next), channels, c, i);
    MappingIsRegistry(next, channels);
    var t := TableOf(r.reg, KindOf(channels[c][i]));
    assert IsTable(t, KindOf(channels[c][i]));
    var k :| 0 <= k < |t.entries| && t.entries[k] == Entry(channels[c][i].name, r.result[c][i]);
  }

  lemma SeparateTables(a: Table, b: Table, id: PortID)
    requires IsTable(a, id.kind) && TableExtends(Table([], a.next), b, id.kind)
    ensures !(exists e, e' :: e in a.entries && e' in b.entries && e.id == id && e'.id == id)
  {
  }

  lemma IdIsFiledUnderItsType(reg: Registry, id: PortID)
    requires IsRegistry(reg) && HasID(reg, id)
    ensures exists entry :: entry in TableOf(reg, id.kind).entries && entry.id == id
  {
    var kind, entry :| entry in TableOf(reg, kind).entries && entry.id == id;
    assert IsTable(TableOf(reg, kind), kind);
  }
}
