/** Process images: for each port the value that was assigned to it last. */
module Images {
  import opened Fmi

  function LastAssigned(vars: seq<Variable>, port: PortID, initial: Value): Value {
    if vars == [] then initial
    else
      var last := vars[|vars| - 1];
      if last.port == port then last.value else LastAssigned(vars[..|vars| - 1], port, initial)
  }

  function Updated(ports: seq<PortID>, image: seq<Value>, vars: seq<Variable>): (r: seq<Value>)
    requires |image| == |ports|
    ensures |r| == |ports|
  {
    seq(|ports|, i requires 0 <= i < |ports| => LastAssigned(vars, ports[i], image[i]))
  }

  /** Variable i is the last one of the port. */
  predicate IsLastOf(vars: seq<Variable>, port: PortID, i: int) {
    0 <= i < |vars| && vars[i].port == port && forall k :: i < k < |vars| ==> vars[k].port != port
  }

  predicate IsAbsent(vars: seq<Variable>, port: PortID) {
    forall k :: 0 <= k < |vars| ==> vars[k].port != port
  }

  predicate Mentions(vars: seq<Variable>, ports: seq<PortID>) {
    exists i :: 0 <= i < |vars| && vars[i].port in ports
  }

  /** The value that is assigned last is that of the last variable of the port. */
  lemma {:induction false} LastAssignedAt(vars: seq<Variable>, port: PortID, initial: Value)
    ensures forall i :: IsLastOf(vars, port, i) ==> LastAssigned(vars, port, initial) == vars[i].value
    ensures IsAbsent(vars, port) ==> LastAssigned(vars, port, initial) == initial
  {
    if vars != [] {
      var n := |vars| - 1;
      LastAssignedAt(vars[..n], port, initial);
      forall i | IsLastOf(vars, port, i)
        ensures LastAssigned(vars, port, initial) == vars[i].value
      {
        if i < n {
          assert vars[n].port != port && vars[..n][i] == vars[i];
          assert IsLastOf(vars[..n], port, i);
        }
      }
    }
  }

  lemma {:induction false} LastAssignedOfConcat(a: seq<Variable>, b: seq<Variable>, port: PortID, initial: Value)
    ensures LastAssigned(a + b, port, initial) == LastAssigned(b, port, LastAssigned(a, port, initial))
  {
    if b == [] {
      assert a + b == a;
    } else {
      assert (a + b)[..|a + b| - 1] == a + b[..|b| - 1];
      LastAssignedOfConcat(a, b[..|b| - 1], port, initial);
    }
  }

  /** Only a value that was assigned, or the initial one, can be in the image. */
  lemma {:induction false} LastAssignedIsAssigned(vars: seq<Variable>, port: PortID, initial: Value)
    ensures var v := LastAssigned(vars, port, initial);
            v == initial || exists i :: 0 <= i < |vars| && vars[i] == Variable(port, v)
  {
    if vars != [] {
      var n := |vars| - 1;
      LastAssignedIsAssigned(vars[..n], port, initial);
      var v := LastAssigned(vars, port, initial);
      if vars[n].port == port {
        assert vars[n] == Variable(port, v);
      } else if v != initial {
        var i :| 0 <= i < n && vars[..n][i] == Variable(port, v);
        assert vars[i] == Variable(port, v);
      }
    }
  }

  /** Searches the image for every variable; a port that is listed twice is set twice. */
  method Update(ports: seq<PortID>, image: seq<Value>, vars: seq<Variable>)
    returns (updated: seq<Value>, found: bool)
    requires |image| == |ports|
    ensures updated == Updated(ports, image, vars)
    ensures found <==> exists i, j :: 0 <= i < |vars| && 0 <= j < |ports| && vars[i].port == ports[j]
    ensures found <==> Mentions(vars, ports)
    ensures forall i, j :: 0 <= j < |ports| && IsLastOf(vars, ports[j], i) ==> updated[j] == vars[i].value
    ensures forall j :: 0 <= j < |ports| && IsAbsent(vars, ports[j]) ==> updated[j] == image[j]
  {
    updated, found := image, false;
    var i := 0;
    while i < |vars|
      invariant 0 <= i <= |vars| && |updated| == |ports|
      invariant forall j :: 0 <= j < |ports| ==> updated[j] == LastAssigned(vars[..i], ports[j], image[j])
      invariant found <==> exists k :: 0 <= k < i && vars[k].port in ports
    {
      ghost var before := updated;
      var j := 0;
      while j < |ports|
        invariant 0 <= j <= |ports| && |updated| == |ports|
        invariant forall k :: 0 <= k < j ==>
                    updated[k] == if vars[i].port == ports[k] then vars[i].value else before[k]
        invariant forall k :: j <= k < |ports| ==> updated[k] == before[k]
        invariant found <==> (exists k :: 0 <= k < i && vars[k].port in ports) || vars[i].port in ports[..j]
      {
        assert ports[..j + 1] == ports[..j] + [ports[j]];
        if vars[i].port == ports[j] {
          found := true;
          updated := updated[j := vars[i].value];
        }
        j := j + 1;
      }
      assert ports[..j] == ports;
      assert vars[..i + 1][..i] == vars[..i];
      i := i + 1;
    }
    assert vars[..i] == vars;
    forall j | 0 <= j < |ports|
      ensures forall i :: IsLastOf(vars, ports[j], i) ==> updated[j] == vars[i].value
      ensures IsAbsent(vars, ports[j]) ==> updated[j] == image[j]
    {
      LastAssignedAt(vars, ports[j], image[j]);
    }
  }
}
