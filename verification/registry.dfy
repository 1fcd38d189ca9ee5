/**
 * The list arithmetic behind `enumerateComPorts`: which names the first loop
 * appends, which tracked ports the second loop keeps and which it removes.
 */
module Registry {
  import opened ComPorts

  /** The names of a list of ports, in list order. */
  function Names(s: seq<ComPort>): (r: seq<string>)
    ensures |r| == |s|
    ensures forall i :: 0 <= i < |s| ==> r[i] == s[i].portName
  {
    seq(|s|, i requires 0 <= i < |s| => s[i].portName)
  }

  predicate NoDuplicates<T(==)>(s: seq<T>) {
    forall i, j :: 0 <= i < j < |s| ==> s[i] != s[j]
  }

  /** No two ports of the list share a name. */
  predicate UniqueNames(s: seq<ComPort>) {
    forall i, j {:trigger NameAt(s, i), NameAt(s, j)} :: 0 <= i < j < |s| ==> NameAt(s, i) != NameAt(s, j)
  }

  function NameAt(s: seq<ComPort>, i: nat): string
    requires i < |s|
  {
    s[i].portName
  }

  /** Distinct names, stated on the list of names. */
  lemma UniqueNamesAsNames(s: seq<ComPort>)
    ensures UniqueNames(s) <==> NoDuplicates(Names(s))
  {
    var names := Names(s);
    assert forall i :: 0 <= i < |s| ==> NameAt(s, i) == names[i];
  }

  /** A port may join a list with distinct names exactly when its name is new to the list. */
  lemma UniqueNamesSnoc(s: seq<ComPort>, x: ComPort)
    ensures UniqueNames(s + [x]) <==> UniqueNames(s) && x.portName !in Names(s)
  {
    var t := s + [x];
    assert forall i :: 0 <= i < |s| ==> NameAt(t, i) == NameAt(s, i);
    assert NameAt(t, |s|) == x.portName;
    if UniqueNames(t) {
      forall i, j | 0 <= i < j < |s|
        ensures NameAt(s, i) != NameAt(s, j)
      {
        assert NameAt(t, i) != NameAt(t, j);
      }
      forall i | 0 <= i < |s|
        ensures Names(s)[i] != x.portName
      {
        assert NameAt(t, i) != NameAt(t, |s|);
      }
    }
    if UniqueNames(s) && x.portName !in Names(s) {
      forall i, j | 0 <= i < j < |t|
        ensures NameAt(t, i) != NameAt(t, j)
      {
        if j < |s| {
          assert NameAt(s, i) != NameAt(s, j);
        } else {
          assert Names(s)[i] == NameAt(s, i);
        }
      }
    }
  }

  /** The position of the first occurrence of `x` (`IndexOf`). */
  function FirstIndex<T(==)>(s: seq<T>, x: T): (k: nat)
    requires x in s
    ensures k < |s| && s[k] == x && x !in s[..k]
    decreases |s|
  {
    if x in s[..|s| - 1] then
      var k := FirstIndex(s[..|s| - 1], x);
      assert s[..|s| - 1][..k] == s[..k];
      k
    else
      |s| - 1
  }

  /**
   * The names the first loop of `enumerateComPorts` appends, in order, to a
   * list whose names are `known`: each enumerated name that is not yet in
   * the list at the moment it is visited.
   */
  function Appended(known: seq<string>, ports: seq<string>): (r: seq<string>)
    ensures |r| <= |ports|
    ensures forall x :: x in r ==> x in ports && x !in known
    decreases |ports|
  {
    if ports == [] then []
    else
      var earlier := Appended(known, ports[..|ports| - 1]);
      var port := ports[|ports| - 1];
      if port in known || port in earlier then earlier else earlier + [port]
  }

  /** The ports the second loop keeps: those whose name is still enumerated, in list order. */
  function Retained(s: seq<ComPort>, ports: seq<string>): (r: seq<ComPort>)
    ensures |r| <= |s|
    decreases |s|
  {
    if s == [] then []
    else
      var earlier := Retained(s[..|s| - 1], ports);
      if s[|s| - 1].portName in ports then earlier + [s[|s| - 1]] else earlier
  }

  /** The ports the second loop removes: those whose name is no longer enumerated, in list order. */
  function Removed(s: seq<ComPort>, ports: seq<string>): (r: seq<ComPort>)
    ensures |Retained(s, ports)| + |r| == |s|
    decreases |s|
  {
    if s == [] then []
    else
      var earlier := Removed(s[..|s| - 1], ports);
      if s[|s| - 1].portName !in ports then earlier + [s[|s| - 1]] else earlier
  }

  /** One step of the second loop: the entry at `j` joins the kept or the removed ports. */
  lemma PartitionStep(s: seq<ComPort>, j: nat, ports: seq<string>)
    requires j < |s|
    ensures Retained(s[..j + 1], ports) == if s[j].portName in ports then Retained(s[..j], ports) + [s[j]] else Retained(s[..j], ports)
    ensures Removed(s[..j + 1], ports) == if s[j].portName in ports then Removed(s[..j], ports) else Removed(s[..j], ports) + [s[j]]
    ensures s[j..] == [s[j]] + s[j + 1..]
  {
    assert s[..j + 1][..j] == s[..j];
  }

  /** The last port of `s`, or `otherwise` when `s` is empty. */
  function LastOr(s: seq<ComPort>, otherwise: ComPort?): (r: ComPort?)
    ensures s != [] ==> r == s[|s| - 1]
    ensures s == [] ==> r == otherwise
  {
    if s == [] then otherwise else s[|s| - 1]
  }

  /** `positions` lists, in increasing order, where the elements of `a` stand in `b`. */
  ghost predicate PositionsIn<T>(a: seq<T>, b: seq<T>, positions: seq<int>) {
    && |positions| == |a|
    && (forall i :: 0 <= i < |a| ==> 0 <= positions[i] < |b| && a[i] == b[positions[i]])
    && (forall i, j :: 0 <= i < j < |a| ==> positions[i] < positions[j])
  }

  /** `a` is `b` with some elements left out and the rest in their order. */
  ghost predicate IsSubsequence<T>(a: seq<T>, b: seq<T>) {
    exists positions :: PositionsIn(a, b, positions)
  }

  lemma NamesConcat(a: seq<ComPort>, b: seq<ComPort>)
    ensures Names(a + b) == Names(a) + Names(b)
  {
  }

  lemma NoDuplicatesConcat<T>(a: seq<T>, b: seq<T>)
    requires NoDuplicates(a) && NoDuplicates(b)
    requires forall x :: x in a ==> x !in b
    ensures NoDuplicates(a + b)
  {
    forall i, j | 0 <= i < j < |a + b|
      ensures (a + b)[i] != (a + b)[j]
    {
      if i < |a| && |a| <= j {
        assert (a + b)[i] in a && (a + b)[j] in b;
      }
    }
  }

  lemma SubsequenceStep<T>(a: seq<T>, b: seq<T>, x: T)
    requires IsSubsequence(a, b)
    ensures IsSubsequence(a + [x], b + [x])
    ensures IsSubsequence(a, b + [x])
  {
    var positions :| PositionsIn(a, b, positions);
    assert PositionsIn(a + [x], b + [x], positions + [|b|]);
    assert PositionsIn(a, b + [x], positions);
  }

  /** A name is appended exactly when it is enumerated and not already tracked. */
  lemma {:induction false} AppendedMembers(known: seq<string>, ports: seq<string>)
    ensures forall x :: x in Appended(known, ports) <==> x in ports && x !in known
  {
    if ports != [] {
      var prefix := ports[..|ports| - 1];
      AppendedMembers(known, prefix);
      assert ports == prefix + [ports[|ports| - 1]];
    }
  }

  /** Nothing is appended when every enumerated name is already tracked. */
  lemma {:induction false} AppendedNothing(known: seq<string>, ports: seq<string>)
    requires forall x :: x in ports ==> x in known
    ensures Appended(known, ports) == []
  {
    if ports != [] {
      var prefix := ports[..|ports| - 1];
      assert forall x :: x in prefix ==> x in ports;
      AppendedNothing(known, prefix);
    }
  }

  /** One step of the first loop: the name at `i` is appended unless it is already known or appended. */
  lemma AppendedStep(known: seq<string>, ports: seq<string>, i: nat)
    requires i < |ports|
    ensures Appended(known, ports[..i + 1])
            == if ports[i] in known || ports[i] in Appended(known, ports[..i]) then Appended(known, ports[..i])
               else Appended(known, ports[..i]) + [ports[i]]
  {
    assert ports[..i + 1][..i] == ports[..i];
  }

  /** No name is appended twice, however often the enumeration repeats it. */
  lemma {:induction false} AppendedNoDuplicates(known: seq<string>, ports: seq<string>)
    ensures NoDuplicates(Appended(known, ports))
  {
    if ports != [] {
      AppendedNoDuplicates(known, ports[..|ports| - 1]);
    }
  }

  /** Every name of `r` occurs in `ports`, and `r` lists them by their first occurrence there. */
  predicate InFirstSeenOrder(r: seq<string>, ports: seq<string>) {
    forall i, j :: 0 <= i < j < |r| ==>
      r[i] in ports && r[j] in ports && FirstIndex(ports, r[i]) < FirstIndex(ports, r[j])
  }

  /** Appended names come in the order of their first occurrence in the enumeration. */
  lemma {:induction false} AppendedInFirstSeenOrder(known: seq<string>, ports: seq<string>)
    ensures InFirstSeenOrder(Appended(known, ports), ports)
  {
    if ports != [] {
      var prefix := ports[..|ports| - 1];
      var port := ports[|ports| - 1];
      var earlier := Appended(known, prefix);
      AppendedInFirstSeenOrder(known, prefix);
      assert InFirstSeenOrder(earlier, prefix);
      AppendedMembers(known, prefix);
      assert ports == prefix + [port];
      forall x | x in prefix
        ensures x in ports && FirstIndex(ports, x) == FirstIndex(prefix, x)
      {
      }
      var r := Appended(known, ports);
      forall i, j | 0 <= i < j < |r|
        ensures r[i] in ports && r[j] in ports && FirstIndex(ports, r[i]) < FirstIndex(ports, r[j])
      {
        assert r[i] in earlier && r[i] in prefix;
        if j < |earlier| {
          assert r[j] in earlier && r[j] in prefix;
          assert r[i] == earlier[i] && r[j] == earlier[j];
          assert FirstIndex(prefix, earlier[i]) < FirstIndex(prefix, earlier[j]);
          assert FirstIndex(ports, r[i]) == FirstIndex(prefix, r[i]);
          assert FirstIndex(ports, r[j]) == FirstIndex(prefix, r[j]);
        } else {
          assert r[j] == port && port !in prefix;
          assert ports[..|ports| - 1] == prefix;
          assert FirstIndex(ports, port) == |ports| - 1;
          assert FirstIndex(prefix, r[i]) < |prefix|;
          assert FirstIndex(ports, r[i]) == FirstIndex(prefix, r[i]);
        }
      }
    }
  }

  /** The second loop splits the list: kept ports are enumerated, removed ones are not. */
  lemma {:induction false} PartitionMembers(s: seq<ComPort>, ports: seq<string>)
    ensures forall p :: p in Retained(s, ports) <==> p in s && p.portName in ports
    ensures forall p :: p in Removed(s, ports) <==> p in s && p.portName !in ports
  {
    if s != [] {
      PartitionMembers(s[..|s| - 1], ports);
      assert s == s[..|s| - 1] + [s[|s| - 1]];
    }
  }

  /** Kept ports keep their relative order; so do removed ones. */
  lemma {:induction false} PartitionKeepsOrder(s: seq<ComPort>, ports: seq<string>)
    ensures IsSubsequence(Retained(s, ports), s)
    ensures IsSubsequence(Removed(s, ports), s)
  {
    if s == [] {
      assert PositionsIn<ComPort>([], [], []);
    } else {
      var prefix := s[..|s| - 1];
      PartitionKeepsOrder(prefix, ports);
      assert s == prefix + [s[|s| - 1]];
      SubsequenceStep(Retained(prefix, ports), prefix, s[|s| - 1]);
      SubsequenceStep(Removed(prefix, ports), prefix, s[|s| - 1]);
    }
  }

  /** The names kept are the tracked names that are still enumerated. */
  lemma {:induction false} RetainedNames(s: seq<ComPort>, ports: seq<string>)
    ensures forall n :: n in Names(Retained(s, ports)) <==> n in Names(s) && n in ports
  {
    if s != [] {
      var prefix := s[..|s| - 1];
      var last := s[|s| - 1];
      RetainedNames(prefix, ports);
      assert Names(s) == Names(prefix) + [last.portName];
      if last.portName in ports {
        NamesConcat(Retained(prefix, ports), [last]);
        assert Names(Retained(s, ports)) == Names(Retained(prefix, ports)) + [last.portName];
      } else {
        assert Names(Retained(s, ports)) == Names(Retained(prefix, ports));
      }
    }
  }

  /** Keeping some of the ports keeps their names distinct. */
  lemma {:induction false} RetainedUnique(s: seq<ComPort>, ports: seq<string>)
    requires UniqueNames(s)
    ensures UniqueNames(Retained(s, ports))
  {
    if s != [] {
      var prefix := s[..|s| - 1];
      var last := s[|s| - 1];
      assert s == prefix + [last];
      UniqueNamesSnoc(prefix, last);
      RetainedUnique(prefix, ports);
      if last.portName in ports {
        RetainedNames(prefix, ports);
        UniqueNamesSnoc(Retained(prefix, ports), last);
      }
    }
  }

  /** Ports appended after `s` whose names are all enumerated are all kept, and nothing else changes. */
  lemma {:induction false} PartitionAppend(s: seq<ComPort>, t: seq<ComPort>, ports: seq<string>)
    requires forall i :: 0 <= i < |t| ==> t[i].portName in ports
    ensures Retained(s + t, ports) == Retained(s, ports) + t
    ensures Removed(s + t, ports) == Removed(s, ports)
  {
    RetainedAppend(s, t, ports);
    RemovedAppend(s, t, ports);
  }

  lemma {:induction false} RetainedAppend(s: seq<ComPort>, t: seq<ComPort>, ports: seq<string>)
    requires forall i :: 0 <= i < |t| ==> t[i].portName in ports
    ensures Retained(s + t, ports) == Retained(s, ports) + t
  {
    if t == [] {
      assert s + t == s;
    } else {
      var prefix := t[..|t| - 1];
      var last := t[|t| - 1];
      RetainedAppend(s, prefix, ports);
      assert (s + t)[..|s + t| - 1] == s + prefix;
      assert t == prefix + [last];
      assert (Retained(s, ports) + prefix) + [last] == Retained(s, ports) + (prefix + [last]);
    }
  }

  lemma {:induction false} RemovedAppend(s: seq<ComPort>, t: seq<ComPort>, ports: seq<string>)
    requires forall i :: 0 <= i < |t| ==> t[i].portName in ports
    ensures Removed(s + t, ports) == Removed(s, ports)
  {
    if t == [] {
      assert s + t == s;
    } else {
      var prefix := t[..|t| - 1];
      RemovedAppend(s, prefix, ports);
      assert (s + t)[..|s + t| - 1] == s + prefix;
    }
  }

  /**
   * After a pass, the tracked names are exactly the enumerated names: kept
   * ports followed by the appended ones.
   */
  lemma ReconciledNames(s: seq<ComPort>, added: seq<ComPort>, ports: seq<string>)
    requires Names(added) == Appended(Names(s), ports)
    ensures forall n :: n in Names(Retained(s, ports) + added) <==> n in ports
  {
    RetainedNames(s, ports);
    AppendedMembers(Names(s), ports);
    NamesConcat(Retained(s, ports), added);
  }

  /** A pass keeps the names of the tracked list distinct. */
  lemma ReconciledUnique(s: seq<ComPort>, added: seq<ComPort>, ports: seq<string>)
    requires UniqueNames(s)
    requires Names(added) == Appended(Names(s), ports)
    ensures UniqueNames(Retained(s, ports) + added)
  {
    RetainedUnique(s, ports);
    UniqueNamesAsNames(Retained(s, ports));
    UniqueNamesAsNames(Retained(s, ports) + added);
    RetainedNames(s, ports);
    AppendedNoDuplicates(Names(s), ports);
    AppendedMembers(Names(s), ports);
    NamesConcat(Retained(s, ports), added);
    NoDuplicatesConcat(Names(Retained(s, ports)), Names(added));
  }

  /**
   * The list after the first loop is the old list followed by the appended
   * ports; the second loop keeps all of those and treats the old entries as
   * if nothing had been appended, and names stay distinct.
   */
  lemma PassPartition(s: seq<ComPort>, added: seq<ComPort>, ports: seq<string>)
    requires UniqueNames(s)
    requires Names(added) == Appended(Names(s), ports)
    ensures Retained(s + added, ports) == Retained(s, ports) + added
    ensures Removed(s + added, ports) == Removed(s, ports)
    ensures UniqueNames(Retained(s, ports) + added)
  {
    AppendedMembers(Names(s), ports);
    forall k | 0 <= k < |added|
      ensures added[k].portName in ports
    {
      assert Names(added)[k] == added[k].portName;
    }
    PartitionAppend(s, added, ports);
    ReconciledUnique(s, added, ports);
  }

  /**
   * A list whose names are all enumerated is a fixed point of a pass: nothing
   * is appended, every port is kept and none is removed.
   */
  lemma EnumeratedFixedPoint(t: seq<ComPort>, ports: seq<string>)
    requires forall n :: n in Names(t) ==> n in ports
    requires forall n :: n in ports ==> n in Names(t)
    ensures Appended(Names(t), ports) == []
    ensures Retained(t, ports) == t
    ensures Removed(t, ports) == []
  {
    AppendedNothing(Names(t), ports);
    forall i | 0 <= i < |t|
      ensures t[i].portName in ports
    {
      assert Names(t)[i] == t[i].portName;
    }
    PartitionAppend([], t, ports);
    assert [] + t == t;
  }

  /**
   * A second pass over the same enumeration appends nothing, keeps every
   * port and removes none.
   */
  lemma ReconcileIdempotent(s: seq<ComPort>, added: seq<ComPort>, ports: seq<string>)
    requires Names(added) == Appended(Names(s), ports)
    ensures Appended(Names(Retained(s, ports) + added), ports) == []
    ensures Retained(Retained(s, ports) + added, ports) == Retained(s, ports) + added
    ensures Removed(Retained(s, ports) + added, ports) == []
  {
    ReconciledNames(s, added, ports);
    EnumeratedFixedPoint(Retained(s, ports) + added, ports);
  }

  /**
   * Walking a snapshot of a list with distinct names: when the entry at `j`
   * is not enumerated, it is the first entry of the current list after the
   * kept ones, and taking it out leaves the list the next step starts from.
   */
  lemma RemovalStep(snapshot: seq<ComPort>, j: nat, ports: seq<string>, current: seq<ComPort>)
    requires UniqueNames(snapshot)
    requires j < |snapshot| && snapshot[j].portName !in ports
    requires current == Retained(snapshot[..j], ports) + snapshot[j..]
    ensures snapshot[j] in current
    ensures FirstIndex(current, snapshot[j]) == |Retained(snapshot[..j], ports)|
    ensures current[..|Retained(snapshot[..j], ports)|] + current[|Retained(snapshot[..j], ports)| + 1..]
            == Retained(snapshot[..j + 1], ports) + snapshot[j + 1..]
  {
    var kept := Retained(snapshot[..j], ports);
    var x := snapshot[j];
    assert x !in kept by {
      PartitionMembers(snapshot[..j], ports);
      forall k | 0 <= k < j
        ensures snapshot[k] != x
      {
        assert NameAt(snapshot, k) != NameAt(snapshot, j);
      }
      assert x !in snapshot[..j];
    }
    PartitionStep(snapshot, j, ports);
    assert current[|kept|] == x;
    assert current[..|kept|] == kept;
    assert current[|kept| + 1..] == snapshot[j + 1..];
  }
}
