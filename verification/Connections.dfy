/**
 * The graph of the atomic parts inside a composite part: a ring through all of them, in
 * order of creation, and then random connections until each part has its number.
 */
module Connections {
  import opened DesignObjects

  function Next(i: nat, n: nat): nat {
    if i + 1 == n then 0 else i + 1
  }

  lemma NextIsRemainder(i: nat, n: nat)
    requires i < n
    ensures Next(i, n) == (i + 1) % n
  {
  }

  /** How many of the connections lead to `d`. */
  ghost function LinksTo(s: seq<Connection>, d: AtomicPart): nat {
    if s == [] then 0 else LinksTo(s[..|s| - 1], d) + if s[|s| - 1].destination == d then 1 else 0
  }

  ghost predicate Inside(s: seq<Connection>, owner: AtomicPart, parts: seq<AtomicPart>) {
    forall c :: c in s ==> c.source == owner && c.destination in parts && 1 <= c.length <= XY_RANGE
  }

  /** Connections stay inside, and `to` on one side matches `from` on the other. */
  ghost predicate WellConnected(parts: seq<AtomicPart>)
    reads parts`to, parts`from
  {
    && (forall a :: a in parts ==> Inside(a.to, a, parts) && Inside(a.from, a, parts))
    && (forall a, b :: a in parts && b in parts ==> LinksTo(a.to, b) == LinksTo(b.from, a))
  }

  /** The first connection of each part leads to the next one. */
  ghost predicate Ring(parts: seq<AtomicPart>)
    reads parts`to
  {
    && (forall i :: 0 <= i < |parts| ==> parts[i].to != [] && Inside(parts[i].to, parts[i], parts))
    && (forall i :: 0 <= i < |parts| ==> parts[i].to[0].destination == parts[Next(i, |parts|)])
  }

  lemma OneMoreLink(s: seq<Connection>, s': seq<Connection>, d: AtomicPart)
    requires |s'| == |s| + 1 && s'[..|s|] == s
    ensures LinksTo(s', d) == LinksTo(s, d) + if s'[|s|].destination == d then 1 else 0
  {
  }

  lemma OneMoreInside(s: seq<Connection>, s': seq<Connection>, owner: AtomicPart, parts: seq<AtomicPart>)
    requires |s'| == |s| + 1 && s'[..|s|] == s && Inside(s, owner, parts)
    requires s'[|s|].source == owner && s'[|s|].destination in parts && 1 <= s'[|s|].length <= XY_RANGE
    ensures Inside(s', owner, parts)
  {
    forall c | c in s'
      ensures c.source == owner && c.destination in parts && 1 <= c.length <= XY_RANGE
    {
      var i :| 0 <= i < |s'| && s'[i] == c;
      if i < |s| {
        assert s[i] == c;
      }
    }
  }

  method Connect(parts: seq<AtomicPart>, i: nat, j: nat)
    requires i < |parts| && j < |parts| && WellConnected(parts)
    modifies {parts[i]}`to, {parts[j]}`from
    ensures WellConnected(parts)
    ensures |parts[i].to| == |old(parts[i].to)| + 1 && parts[i].to[..|old(parts[i].to)|] == old(parts[i].to)
    ensures parts[i].to[|old(parts[i].to)|].destination == parts[j]
  {
    var length :| 1 <= length <= XY_RANGE;
    var source, destination := parts[i], parts[j];
    ghost var to, from := source.to, destination.from;
    source.ConnectTo(destination, length);
    OneMoreInside(to, source.to, source, parts);
    OneMoreInside(from, destination.from, destination, parts);
    forall a, b | a in parts && b in parts
      ensures LinksTo(a.to, b) == LinksTo(b.from, a)
    {
      OneMoreLink(to, source.to, b);
      OneMoreLink(from, destination.from, a);
    }
  }

  ghost predicate AllDifferent(parts: seq<AtomicPart>) {
    forall i, j :: 0 <= i < j < |parts| ==> parts[i] != parts[j]
  }

  /** The first connection of part `i` leads to the next part. */
  ghost predicate LeadsOn(parts: seq<AtomicPart>, i: nat)
    requires i < |parts|
    reads parts`to
  {
    parts[i].to != [] && parts[i].to[0].destination == parts[Next(i, |parts|)]
  }

  method CreateConnections(parts: seq<AtomicPart>, numConnPerAtomic: nat)
    requires AllDifferent(parts) && forall p :: p in parts ==> p.to == [] && p.from == []
    modifies parts`to, parts`from
    ensures WellConnected(parts) && Ring(parts)
    ensures forall p :: p in parts ==> |p.to| == if numConnPerAtomic == 0 then 1 else numConnPerAtomic
  {
    hide WellConnected, Ring, LeadsOn;
    ConnectRing(parts);
    var partNum := 0;
    while partNum < |parts|
      invariant partNum <= |parts| && WellConnected(parts)
      invariant forall i :: 0 <= i < |parts| ==> LeadsOn(parts, i)
      invariant forall i :: 0 <= i < partNum ==> |parts[i].to| == if numConnPerAtomic == 0 then 1 else numConnPerAtomic
      invariant forall i :: partNum <= i < |parts| ==> |parts[i].to| == 1
    {
      ConnectFurther(parts, partNum, numConnPerAtomic);
      partNum := partNum + 1;
    }
    RingFromLinks(parts);
  }

  lemma RingFromLinks(parts: seq<AtomicPart>)
    requires WellConnected(parts) && forall i :: 0 <= i < |parts| ==> LeadsOn(parts, i)
    ensures Ring(parts)
  {
    forall i | 0 <= i < |parts|
      ensures parts[i].to != [] && Inside(parts[i].to, parts[i], parts)
      ensures parts[i].to[0].destination == parts[Next(i, |parts|)]
    {
      assert LeadsOn(parts, i) && parts[i] in parts;
    }
  }

  method ConnectRing(parts: seq<AtomicPart>)
    requires AllDifferent(parts) && forall p :: p in parts ==> p.to == [] && p.from == []
    modifies parts`to, parts`from
    ensures WellConnected(parts)
    ensures forall i :: 0 <= i < |parts| ==> |parts[i].to| == 1 && LeadsOn(parts, i)
  {
    var n := |parts|;
    var partNum := 0;
    while partNum < n
      invariant partNum <= n && WellConnected(parts)
      invariant forall i :: 0 <= i < partNum ==> |parts[i].to| == 1 && LeadsOn(parts, i)
      invariant forall i :: partNum <= i < n ==> parts[i].to == []
    {
      var connectTo := (partNum + 1) % n;
      NextIsRemainder(partNum, n);
      Connect(parts, partNum, connectTo);
      partNum := partNum + 1;
    }
  }

  lemma FirstStays(to: seq<Connection>, to': seq<Connection>)
    requires 1 <= |to| <= |to'| && to'[..|to|] == to
    ensures to'[0] == to[0]
  {
  }

  method ConnectFurther(parts: seq<AtomicPart>, partNum: nat, numConnPerAtomic: nat)
    requires AllDifferent(parts) && WellConnected(parts) && partNum < |parts| && |parts[partNum].to| == 1
    requires forall i :: 0 <= i < |parts| ==> LeadsOn(parts, i)
    modifies {parts[partNum]}`to, parts`from
    ensures WellConnected(parts)
    ensures forall i :: 0 <= i < |parts| ==> LeadsOn(parts, i)
    ensures |parts[partNum].to| == if numConnPerAtomic == 0 then 1 else numConnPerAtomic
  {
    hide WellConnected;
    while |parts[partNum].to| < numConnPerAtomic
      invariant WellConnected(parts)
      invariant forall i :: 0 <= i < |parts| ==> LeadsOn(parts, i)
      invariant 1 <= |parts[partNum].to| && (|parts[partNum].to| == 1 || |parts[partNum].to| <= numConnPerAtomic)
      decreases numConnPerAtomic - |parts[partNum].to|
    {
      var connectTo :| 0 <= connectTo < |parts|;
      ghost var to := parts[partNum].to;
      label before:
      Connect(parts, partNum, connectTo);
      FirstStays(to, parts[partNum].to);
      forall i | 0 <= i < |parts|
        ensures LeadsOn(parts, i)
      {
        assert old@before(LeadsOn(parts, i)) && (i != partNum ==> parts[i] != parts[partNum]);
      }
    }
  }
}
