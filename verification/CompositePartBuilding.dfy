/**
 * The builders of documents and of composite parts.  A composite part owns a document
 * and a fixed number of atomic parts, which are first connected in a ring and then at
 * random; its creation undoes itself when one of three id pools runs dry.
 */
module CompositePartBuilding {
  import opened DesignObjects
  import opened IdPools
  import opened ComponentBags
  import opened AtomicPartBuilding
  import opened Connections

  class DocumentBuilder {
    const maxDocuments: nat
    const idPool: IdPool
    /** The title is made from the id of the composite part, which stands for it here. */
    var documentTitleIndex: map<int, Document>

    constructor (maxDocuments: nat)
      ensures this.maxDocuments == maxDocuments && fresh(idPool)
      ensures Valid() && documentTitleIndex == map[]
    {
      this.maxDocuments := maxDocuments;
      idPool := new IdPool(maxDocuments);
      documentTitleIndex := map[];
    }

    ghost predicate Valid()
      reads `documentTitleIndex, idPool`ids
    {
      && DocumentsKeyed(documentTitleIndex)
      && Partition(idPool.ids, DocumentIds(documentTitleIndex), maxDocuments)
    }

    method CreateAndRegisterDocument(compositePartId: int) returns (created: Option<Document>)
      requires Valid() && compositePartId !in documentTitleIndex
      modifies this`documentTitleIndex, idPool`ids
      ensures Valid()
      ensures created.None? <==> old(idPool.ids) == []
      ensures created.None? ==> idPool.ids == old(idPool.ids) && documentTitleIndex == old(documentTitleIndex)
      ensures created.Some? ==>
        && var document := created.value;
        && fresh(document) && old(idPool.ids) == [document.id] + idPool.ids
        && document.compositePartId == compositePartId && document.part == null
        && documentTitleIndex == old(documentTitleIndex)[compositePartId := document]
    {
      var docId := idPool.GetId();
      if docId.None? {
        return None;
      }
      var documentation := new Document(docId.value, compositePartId);
      PartitionTake(docId.value, idPool.ids, DocumentIds(documentTitleIndex), maxDocuments);
      DocumentPut(documentTitleIndex, documentation);
      documentTitleIndex := documentTitleIndex[compositePartId := documentation];
      created := Some(documentation);
    }

    method UnregisterAndRecycleDocument(document: Document)
      requires Valid() && document.compositePartId in documentTitleIndex
      requires documentTitleIndex[document.compositePartId] == document
      modifies this`documentTitleIndex, idPool`ids, document`part
      ensures Valid()
      ensures documentTitleIndex == old(documentTitleIndex) - {document.compositePartId}
      ensures idPool.ids == old(idPool.ids) + [document.id] && document.part == null
    {
      document.part := null;
      DocumentRemove(documentTitleIndex, document);
      PartitionPut(document.id, idPool.ids, DocumentIds(documentTitleIndex), maxDocuments);
      documentTitleIndex := documentTitleIndex - {document.compositePartId};
      idPool.PutUnusedId(document.id);
    }
  }

  /** Documents stand under their own titles, and no two have the same id. */
  ghost predicate DocumentsKeyed(index: map<int, Document>) {
    && (forall k :: k in index ==> index[k].compositePartId == k)
    && (forall j, k :: j in index && k in index && index[j].id == index[k].id ==> j == k)
  }

  ghost function DocumentIds(index: map<int, Document>): set<int> {
    set k | k in index :: index[k].id
  }

  lemma DocumentPut(index: map<int, Document>, d: Document)
    requires DocumentsKeyed(index) && d.compositePartId !in index && d.id !in DocumentIds(index)
    ensures DocumentsKeyed(index[d.compositePartId := d])
    ensures DocumentIds(index[d.compositePartId := d]) == DocumentIds(index) + {d.id}
  {
    var after := index[d.compositePartId := d];
    assert forall k :: k in index ==> k in after && after[k] == index[k] && index[k].id in DocumentIds(index);
    assert after[d.compositePartId] == d;
  }

  lemma DocumentRemove(index: map<int, Document>, d: Document)
    requires DocumentsKeyed(index) && d.compositePartId in index && index[d.compositePartId] == d
    ensures d.id in DocumentIds(index)
    ensures DocumentsKeyed(index - {d.compositePartId})
    ensures DocumentIds(index - {d.compositePartId}) == DocumentIds(index) - {d.id}
  {
    var after := index - {d.compositePartId};
    assert forall k :: k in after ==> k in index && after[k] == index[k] && after[k].id in DocumentIds(after);
    forall id | id in DocumentIds(index) - {d.id}
      ensures id in DocumentIds(after)
    {
      var k :| k in index && index[k].id == id;
      assert k in after && after[k].id == id;
    }
  }

  lemma DocumentCount(index: map<int, Document>)
    requires DocumentsKeyed(index)
    ensures |DocumentIds(index)| == |index|
  {
    DistinctImage(index, index.Keys);
    assert DocumentIds(index) == set k | k in index.Keys :: index[k].id;
  }

  lemma {:induction false} DistinctImage(index: map<int, Document>, keys: set<int>)
    requires DocumentsKeyed(index) && keys <= index.Keys
    ensures |set k | k in keys :: index[k].id| == |keys|
  {
    if keys != {} {
      var k := PickOne(keys);
      DistinctImage(index, keys - {k});
      assert (set j | j in keys :: index[j].id) == (set j | j in keys - {k} :: index[j].id) + {index[k].id};
    }
  }

  lemma PickOne<T>(s: set<T>) returns (x: T)
    requires s != {}
    ensures x in s
  {
    x :| x in s;
  }

  // ---------- the atomic parts of one composite part ----------

  ghost function Elements(parts: seq<AtomicPart>): set<AtomicPart> {
    set p | p in parts
  }

  lemma OneMoreElement(parts: seq<AtomicPart>, p: AtomicPart)
    requires AllDifferent(parts) && p !in parts
    ensures AllDifferent(parts + [p]) && Elements(parts + [p]) == Elements(parts) + {p}
  {
  }

  ghost predicate Unconnected(parts: seq<AtomicPart>)
    reads parts`to, parts`from
  {
    forall p :: p in parts ==> p.to == [] && p.from == []
  }

  /** The loop stops where the original throws; the parts made so far are the ones the handler removes. */
  method CreateAtomicParts(builder: AtomicPartBuilder, numAtomicPerComp: nat) returns (complete: bool, parts: seq<AtomicPart>)
    requires builder.Valid()
    modifies builder`partIdIndex, builder`partBuildDateIndex, builder.idPool`ids
    ensures builder.Valid() && builder.Live() == old(builder.Live()) + Elements(parts)
    ensures Elements(parts) !! old(builder.Live())
    ensures complete <==> |old(builder.idPool.ids)| >= numAtomicPerComp
    ensures complete ==> |parts| == numAtomicPerComp && |builder.idPool.ids| == |old(builder.idPool.ids)| - numAtomicPerComp
    ensures AllDifferent(parts) && Unconnected(parts)
    ensures forall i :: 0 <= i < |parts| ==> fresh(parts[i])
  {
    hide Partition, DatesAgree, Entries, Keyed;
    parts := [];
    var partNum := 0;
    while partNum < numAtomicPerComp
      invariant |parts| == partNum <= numAtomicPerComp
      invariant builder.Valid() && builder.Live() == old(builder.Live()) + Elements(parts)
      invariant Elements(parts) !! old(builder.Live())
      invariant |builder.idPool.ids| == |old(builder.idPool.ids)| - partNum
      invariant AllDifferent(parts) && Unconnected(parts)
      invariant forall i :: 0 <= i < |parts| ==> fresh(parts[i])
    {
      ghost var index := builder.partIdIndex;
      var part := builder.CreateAndRegisterAtomicPart();
      if part.None? {
        return false, parts;
      }
      PutEntry(index, part.value);
      OneMoreElement(parts, part.value);
      parts := parts + [part.value];
      partNum := partNum + 1;
    }
    complete := true;
  }

  method RemoveAtomicParts(builder: AtomicPartBuilder, parts: seq<AtomicPart>)
    requires builder.Valid() && AllDifferent(parts) && Elements(parts) <= builder.Live()
    modifies builder`partIdIndex, builder`partBuildDateIndex, builder.idPool`ids
    modifies parts`x, parts`y, parts`to, parts`from, parts`partOf
    ensures builder.Valid() && builder.Live() == old(builder.Live()) - Elements(parts)
    ensures forall p :: p in parts ==> p.to == [] && p.from == [] && p.partOf == null
  {
    hide Partition, DatesAgree, Entries, Keyed;
    var i := 0;
    while i < |parts|
      invariant i <= |parts|
      invariant builder.Valid() && builder.Live() == old(builder.Live()) - Elements(parts[..i])
      invariant forall p :: p in parts[i..] ==> p in builder.Live()
      invariant forall j :: 0 <= j < i ==> parts[j].to == [] && parts[j].from == [] && parts[j].partOf == null
    {
      TakeOneElement(parts, i);
      ghost var index := builder.partIdIndex;
      RemoveEntry(index, parts[i]);
      builder.UnregisterAndRecycleAtomicPart(parts[i]);
      i := i + 1;
    }
    assert parts[..i] == parts;
  }

  lemma TakeOneElement(parts: seq<AtomicPart>, i: nat)
    requires AllDifferent(parts) && i < |parts|
    ensures Elements(parts[..i + 1]) == Elements(parts[..i]) + {parts[i]}
    ensures parts[i] in parts[i..] && parts[i] !in parts[i + 1..]
    ensures forall p :: p in parts[i + 1..] ==> p in parts[i..]
  {
    assert parts[..i + 1] == parts[..i] + [parts[i]];
    assert parts[i..] == [parts[i]] + parts[i + 1..];
  }

  // ---------- composite parts ----------

  ghost function Values(index: map<int, CompositePart>): set<CompositePart> {
    set id | id in index :: index[id]
  }

  ghost function Documents(index: map<int, Document>): set<Document> {
    set id | id in index :: index[id]
  }

  /** Old or young. */
  ghost predicate ComponentDate(date: int) {
    MIN_OLD_COMP_DATE <= date <= MAX_OLD_COMP_DATE || MIN_YOUNG_COMP_DATE <= date <= MAX_YOUNG_COMP_DATE
  }

  /** A composite part with its document and its ring of `n` atomic parts, the first being the root. */
  ghost predicate PartOk(c: CompositePart, d: Document, live: set<AtomicPart>, n: nat)
    reads c`documentation, c`parts, c`rootPart, c`ring, d`part, live`partOf, live`to
  {
    && c.documentation == d && d.part == c && d.compositePartId == c.id && ComponentDate(c.buildDate)
    && c.parts == Elements(c.ring) && c.parts <= live
    && |c.ring| == n && n >= 1 && c.rootPart == c.ring[0]
    && AllDifferent(c.ring) && RingIn(c.ring, live)
    && forall p :: p in live ==> (p in c.parts <==> p.partOf == c)
  }

  /** All parts have their full number of connections, and `to` and `from` match. */
  ghost predicate FullyConnected(c: CompositePart, numConnPerAtomic: nat)
    reads c`ring, c.ring`to, c.ring`from
  {
    WellConnected(c.ring) && forall p :: p in c.ring ==> |p.to| == if numConnPerAtomic == 0 then 1 else numConnPerAtomic
  }

  ghost predicate RingIn(ring: seq<AtomicPart>, live: set<AtomicPart>)
    reads live`to
  {
    Elements(ring) <= live && Ring(ring)
  }

  /** The composite parts of the index own exactly the documents and the atomic parts there are. */
  ghost predicate PartsOk(index: map<int, CompositePart>, docs: map<int, Document>, live: set<AtomicPart>, n: nat)
    reads Values(index)`documentation, Values(index)`parts, Values(index)`rootPart, Values(index)`ring
    reads Documents(docs)`part, live`partOf, live`to
  {
    && docs.Keys == index.Keys
    && (forall id :: id in index ==> index[id].id == id && PartOk(index[id], docs[id], live, n))
    && (forall p :: p in live ==> p.partOf in Values(index))
  }

  lemma OneMorePart(index: map<int, CompositePart>, docs: map<int, Document>, live: set<AtomicPart>, n: nat,
                    c: CompositePart, d: Document)
    requires PartsOk(index, docs, live, n) && c.id !in index
    requires c.parts !! live && PartOk(c, d, live + c.parts, n)
    ensures PartsOk(index[c.id := c], docs[c.id := d], live + c.parts, n)
  {
    hide Ring, AllDifferent, Elements;
    var index', docs', live' := index[c.id := c], docs[c.id := d], live + c.parts;
    forall id | id in index
      ensures PartOk(index[id], docs[id], live', n)
    {
      assert index'[id] == index[id];
    }
    assert index'[c.id] == c;
    forall p | p in live'
      ensures p.partOf in Values(index')
    {
      if p in live {
        var id :| id in index && p.partOf == index[id];
        assert id in index' && index'[id] == index[id];
      }
    }
  }

  lemma TakenApart(index: map<int, CompositePart>, docs: map<int, Document>, live: set<AtomicPart>, n: nat, c: CompositePart)
    requires PartsOk(index, docs, live, n) && c in Values(index)
    ensures c.id in index && index[c.id] == c && c.id in docs && docs[c.id] == c.documentation
    ensures c.documentation != null && c.documentation.compositePartId == c.id && c.documentation in Documents(docs)
    ensures PartsOk(index - {c.id}, docs - {c.id}, live - c.parts, n)
    ensures c !in Values(index - {c.id}) && c.documentation !in Documents(docs - {c.id})
    ensures c.parts <= live
  {
    var id :| id in index && index[id] == c;
    OnePartLess(index, docs, live, n, id);
    assert PartOk(c, docs[id], live, n);
  }

  lemma PartsDiffer(index: map<int, CompositePart>, docs: map<int, Document>, live: set<AtomicPart>, n: nat)
    requires PartsOk(index, docs, live, n)
    ensures DistinctParts(Values(index))
    ensures forall id :: id in index ==> index[id].id == id && index[id] in Values(index) && index[id].parts <= live
  {
  }

  lemma WithoutOne(index: map<int, CompositePart>, id: int)
    requires id in index && forall k :: k in index ==> index[k].id == k
    ensures Values(index - {id}) == Values(index) - {index[id]}
  {
    forall c | c in Values(index) - {index[id]}
      ensures c in Values(index - {id})
    {
      var k :| k in index && index[k] == c;
      assert k in index - {id} && (index - {id})[k] == c;
    }
  }

  lemma PutBack(id: int, free: seq<int>, used: set<int>, max: nat)
    requires Partition(free, used + {id}, max) && id !in used
    ensures Partition(free + [id], used, max)
  {
    PartitionPut(id, free, used + {id}, max);
    assert used + {id} - {id} == used;
  }

  lemma PutThenRemove<T>(m: map<int, T>, k: int, x: T)
    requires k !in m
    ensures m[k := x] - {k} == m
  {
  }

  lemma AddThenDrop<T>(s: set<T>, t: set<T>)
    requires s !! t
    ensures s + t - t == s
  {
  }

  lemma NewPartOk(index: map<int, CompositePart>, docs: map<int, Document>, live: set<AtomicPart>,
                  c: CompositePart, d: Document, parts: seq<AtomicPart>, n: nat)
    requires PartsOk(index, docs, live, n) && c !in Values(index)
    requires c.documentation == d && d.part == c && d.compositePartId == c.id && ComponentDate(c.buildDate)
    requires c.parts == Elements(parts) && c.ring == parts && |parts| == n && n >= 1 && c.rootPart == parts[0]
    requires AllDifferent(parts) && Ring(parts) && forall p :: p in parts ==> p.partOf == c
    ensures PartOk(c, d, live + c.parts, n)
  {
    hide Ring, AllDifferent;
  }

  lemma SameKeys(index: map<int, CompositePart>, docs: map<int, Document>, live: set<AtomicPart>, n: nat)
    requires PartsOk(index, docs, live, n)
    ensures docs.Keys == index.Keys
  {
  }

  lemma OnePartLess(index: map<int, CompositePart>, docs: map<int, Document>, live: set<AtomicPart>, n: nat, id: int)
    requires PartsOk(index, docs, live, n) && id in index
    ensures PartsOk(index - {id}, docs - {id}, live - index[id].parts, n)
    ensures index[id] !in Values(index - {id}) && docs[id] !in Documents(docs - {id})
    ensures index[id].parts <= live && |index[id].parts| == n
  {
    hide Ring, AllDifferent;
    var c, index', docs', live' := index[id], index - {id}, docs - {id}, live - index[id].parts;
    RingSize(c.ring);
    forall k | k in index'
      ensures PartOk(index[k], docs[k], live', n)
    {
      assert index[k].id == k && index[id].id == id && index[k] != c;
      assert PartOk(index[k], docs[k], live, n) && PartOk(c, docs[id], live, n);
      assert forall p :: p in index[k].parts ==> p in live && p.partOf == index[k] && p !in c.parts;
    }
    forall p | p in live'
      ensures p.partOf in Values(index')
    {
      var k :| k in index && p.partOf == index[k];
      assert PartOk(c, docs[id], live, n);
      assert k in index' && index'[k] == index[k];
    }
  }

  lemma RingSize(ring: seq<AtomicPart>)
    requires AllDifferent(ring)
    ensures |Elements(ring)| == |ring|
  {
    DistinctSize(ring);
  }

  /** Every composite part has its `n` atomic parts, and there are no others. */
  lemma {:induction false} PartsCount(index: map<int, CompositePart>, docs: map<int, Document>, live: set<AtomicPart>, n: nat)
    requires PartsOk(index, docs, live, n)
    ensures |live| == n * |index|
    decreases |index|
  {
    hide PartsOk, PartOk, Values, Documents, Elements, Ring;
    if |index| == 0 {
      NoPartsLeft(index, docs, live, n);
    } else {
      var id := PickOne(index.Keys);
      OnePartLess(index, docs, live, n, id);
      OneKeyLess(index, id);
      PartsCount(index - {id}, docs - {id}, live - index[id].parts, n);
      SplitSize(live, index[id].parts, n, |index|);
    }
  }

  lemma OneKeyLess<T>(m: map<int, T>, k: int)
    requires k in m
    ensures |m - {k}| == |m| - 1
  {
    assert (m - {k}).Keys == m.Keys - {k};
  }

  lemma SplitSize(live: set<AtomicPart>, parts: set<AtomicPart>, n: nat, k: nat)
    requires parts <= live && |parts| == n && k > 0 && |live - parts| == n * (k - 1)
    ensures |live| == n * k
  {
    assert live == (live - parts) + parts;
    assert n * k == n * (k - 1) + n;
  }

  lemma NoPartsLeft(index: map<int, CompositePart>, docs: map<int, Document>, live: set<AtomicPart>, n: nat)
    requires PartsOk(index, docs, live, n) && |index| == 0
    ensures live == {}
  {
    assert Values(index) == {};
  }

  lemma PutComposite(index: map<int, CompositePart>, c: CompositePart)
    requires c.id !in index
    ensures Values(index[c.id := c]) == Values(index) + {c}
  {
    var after := index[c.id := c];
    assert forall id :: id in index ==> id in after && after[id] == index[id];
    assert after[c.id] == c;
  }

  lemma IdsDiffer(index: map<int, AtomicPart>, parts: seq<AtomicPart>)
    requires Keyed(index) && Elements(parts) <= Entries(index) && AllDifferent(parts)
    ensures forall i, j :: 0 <= i < j < |parts| ==> parts[i].id != parts[j].id
  {
    forall i, j | 0 <= i < j < |parts|
      ensures parts[i].id != parts[j].id
    {
      assert parts[i] in Entries(index) && parts[j] in Entries(index);
    }
  }

  /** The new component takes its parts in order, so the first becomes the root. */
  method Assemble(id: int, documentation: Document, parts: seq<AtomicPart>) returns (component: CompositePart)
    requires parts != [] && AllDifferent(parts) && documentation.compositePartId == id
    requires forall i, j :: 0 <= i < j < |parts| ==> parts[i].id != parts[j].id
    modifies documentation`part, parts`partOf
    ensures fresh(component) && component.id == id && component.usedIn == []
    ensures component.documentation == documentation && documentation.part == component && ComponentDate(component.buildDate)
    ensures component.parts == Elements(parts) && component.ring == parts && component.rootPart == parts[0]
    ensures forall p :: p in parts ==> p.partOf == component
  {
    var buildDate := CreateBuildDate();
    component := new CompositePart(id, buildDate, documentation, parts);
    var i := 0;
    while i < |parts|
      invariant i <= |parts|
      invariant component.documentation == documentation && documentation.part == component
      invariant component.usedIn == [] && component.ring == parts
      invariant component.parts == Elements(parts[..i])
      invariant component.rootPart == if i == 0 then null else parts[0]
      invariant forall p :: p in component.parts ==> p.partOf == component
    {
      TakeOneElement(parts, i);
      var notAddedBefore := component.AddPart(parts[i]);
      i := i + 1;
    }
    assert parts[..i] == parts;
  }

  /** One part in ten is young. */
  method CreateBuildDate() returns (date: int)
    ensures ComponentDate(date)
  {
    date :| MIN_OLD_COMP_DATE <= date <= MAX_OLD_COMP_DATE || MIN_YOUNG_COMP_DATE <= date <= MAX_YOUNG_COMP_DATE;
  }

  const MIN_OLD_COMP_DATE := 0
  const MAX_OLD_COMP_DATE := 999
  const MIN_YOUNG_COMP_DATE := 2000
  const MAX_YOUNG_COMP_DATE := 2999

  class CompositePartBuilder {
    const numAtomicPerComp: nat
    const numConnPerAtomic: nat
    const maxCompParts: nat
    const idPool: IdPool
    const documentBuilder: DocumentBuilder
    const atomicPartBuilder: AtomicPartBuilder
    var compositePartIdIndex: map<int, CompositePart>

    constructor (numAtomicPerComp: nat, numConnPerAtomic: nat, maxCompParts: nat)
      requires numAtomicPerComp >= 1
      ensures Valid() && Balanced() && Composites() == {}
      ensures this.numAtomicPerComp == numAtomicPerComp && this.numConnPerAtomic == numConnPerAtomic
      ensures this.maxCompParts == maxCompParts
      ensures fresh(idPool) && fresh(documentBuilder.idPool) && fresh(atomicPartBuilder.idPool)
    {
      this.numAtomicPerComp := numAtomicPerComp;
      this.numConnPerAtomic := numConnPerAtomic;
      this.maxCompParts := maxCompParts;
      idPool := new IdPool(maxCompParts);
      documentBuilder := new DocumentBuilder(maxCompParts);
      atomicPartBuilder := new AtomicPartBuilder(maxCompParts * numAtomicPerComp);
      compositePartIdIndex := map[];
    }

    ghost function Composites(): set<CompositePart>
      reads this`compositePartIdIndex
    {
      Values(compositePartIdIndex)
    }

    ghost function Live(): set<AtomicPart>
      reads atomicPartBuilder`partIdIndex
    {
      atomicPartBuilder.Live()
    }

    /** All but the dates of the atomic parts. */
    ghost predicate ContentsOk()
      reads `compositePartIdIndex, documentBuilder`documentTitleIndex, atomicPartBuilder`partIdIndex
      reads idPool`ids, documentBuilder.idPool`ids
      reads Composites()`documentation, Composites()`parts, Composites()`rootPart, Composites()`ring
      reads Documents(documentBuilder.documentTitleIndex)`part, Live()`partOf, Live()`to
    {
      && idPool != documentBuilder.idPool && idPool != atomicPartBuilder.idPool
      && documentBuilder.idPool != atomicPartBuilder.idPool
      && documentBuilder.Valid() && numAtomicPerComp >= 1
      && Partition(idPool.ids, compositePartIdIndex.Keys, maxCompParts)
      && PartsOk(compositePartIdIndex, documentBuilder.documentTitleIndex, Live(), numAtomicPerComp)
    }

    ghost predicate Valid()
      reads `compositePartIdIndex, documentBuilder`documentTitleIndex
      reads atomicPartBuilder`partIdIndex, atomicPartBuilder`partBuildDateIndex
      reads idPool`ids, documentBuilder.idPool`ids, atomicPartBuilder.idPool`ids
      reads Composites()`documentation, Composites()`parts, Composites()`rootPart, Composites()`ring
      reads Documents(documentBuilder.documentTitleIndex)`part, Live()`partOf, Live()`to, Live()`buildDate
    {
      ContentsOk() && atomicPartBuilder.Valid()
    }

    lemma ContentsFrom()
      requires idPool != documentBuilder.idPool && idPool != atomicPartBuilder.idPool
      requires documentBuilder.idPool != atomicPartBuilder.idPool
      requires documentBuilder.Valid() && numAtomicPerComp >= 1
      requires Partition(idPool.ids, compositePartIdIndex.Keys, maxCompParts)
      requires PartsOk(compositePartIdIndex, documentBuilder.documentTitleIndex, Live(), numAtomicPerComp)
      ensures ContentsOk()
    {
    }

    lemma PoolsDiffer()
      requires ContentsOk()
      ensures idPool != documentBuilder.idPool && idPool != atomicPartBuilder.idPool
      ensures documentBuilder.idPool != atomicPartBuilder.idPool
      ensures documentBuilder.Valid() && numAtomicPerComp >= 1
      ensures Partition(idPool.ids, compositePartIdIndex.Keys, maxCompParts)
    {
    }

    lemma ContentsAre()
      requires ContentsOk()
      ensures PartsOk(compositePartIdIndex, documentBuilder.documentTitleIndex, Live(), numAtomicPerComp)
    {
    }

    /** How the benchmark sizes the pools: one document and all its atomic parts for each composite part. */
    ghost predicate Balanced() {
      documentBuilder.maxDocuments == maxCompParts && atomicPartBuilder.maxAtomicParts == maxCompParts * numAtomicPerComp
    }

    /** What a creation takes from the three pools. */
    ghost predicate Enough()
      reads idPool`ids, documentBuilder.idPool`ids, atomicPartBuilder.idPool`ids
    {
      |idPool.ids| >= 1 && |documentBuilder.idPool.ids| >= 1 && |atomicPartBuilder.idPool.ids| >= numAtomicPerComp
    }

    /**
     * Between operations as many document ids are free as composite part ids, and `N` times
     * as many atomic part ids; so one composite part id is enough, and the handler of a
     * failed creation is never reached.
     */
    lemma PoolsInStep()
      requires Valid() && Balanced()
      ensures |documentBuilder.idPool.ids| == |idPool.ids|
      ensures |atomicPartBuilder.idPool.ids| == numAtomicPerComp * |idPool.ids|
      ensures Enough() <==> idPool.ids != []
    {
      var docs, parts := documentBuilder.documentTitleIndex, atomicPartBuilder.partIdIndex;
      FreeCount(idPool.ids, compositePartIdIndex.Keys, maxCompParts);
      DocumentCount(docs);
      FreeCount(documentBuilder.idPool.ids, DocumentIds(docs), maxCompParts);
      PartsCount(compositePartIdIndex, docs, Live(), numAtomicPerComp);
      EntryCount(parts, parts.Keys);
      FreeCount(atomicPartBuilder.idPool.ids, parts.Keys, atomicPartBuilder.maxAtomicParts);
      assert docs.Keys == compositePartIdIndex.Keys;
      Distribute(numAtomicPerComp, maxCompParts, |compositePartIdIndex|);
    }

    /** All or nothing over the three pools; on failure every index is as it was. */
    method CreateAndRegisterCompositePart() returns (created: Option<CompositePart>)
      requires Valid()
      modifies this`compositePartIdIndex, documentBuilder`documentTitleIndex
      modifies atomicPartBuilder`partIdIndex, atomicPartBuilder`partBuildDateIndex
      modifies idPool`ids, documentBuilder.idPool`ids, atomicPartBuilder.idPool`ids
      ensures Valid()
      ensures created.Some? <==> old(Enough())
      ensures created.None? ==>
        && compositePartIdIndex == old(compositePartIdIndex)
        && documentBuilder.documentTitleIndex == old(documentBuilder.documentTitleIndex)
        && atomicPartBuilder.partIdIndex == old(atomicPartBuilder.partIdIndex)
        && forall date :: Under(atomicPartBuilder.partBuildDateIndex, date) ==
                          Under(old(atomicPartBuilder.partBuildDateIndex), date)
      ensures created.Some? ==>
        && var component := created.value;
        && fresh(component) && component.usedIn == [] && component.id !in old(compositePartIdIndex)
        && compositePartIdIndex == old(compositePartIdIndex)[component.id := component]
        && FullyConnected(component, numConnPerAtomic)
    {
      hide Partition, DatesAgree, PartsOk, PartOk, Keyed, DocumentsKeyed, DocumentIds, InWidenedInterval, RingIn, Ring;
      hide DocumentBuilder.Valid, AtomicPartBuilder.Valid, Under, FullyConnected, CompositePartBuilder.ContentsOk;
      ghost var index, docs, live := compositePartIdIndex, documentBuilder.documentTitleIndex, Live();
      ghost var composites, documents := Values(index), Documents(docs);
      PoolsDiffer();
      ContentsAre();
      SameKeys(index, docs, live, numAtomicPerComp);
      var id := idPool.GetId();
      if id.None? {
        ContentsFrom();
        return None;
      }
      PartitionTake(id.value, idPool.ids, compositePartIdIndex.Keys, maxCompParts);
      var documentation := documentBuilder.CreateAndRegisterDocument(id.value);
      if documentation.Some? {
        created := CreateComponent(documentation.value, index, docs, live);
      } else {
        created := None;
      }
      assert created.None? ==> PartsOk(index, docs, live, numAtomicPerComp);
      if created.None? {
        PutBack(id.value, idPool.ids, compositePartIdIndex.Keys, maxCompParts);
        idPool.PutUnusedId(id.value);
        ContentsFrom();
      } else {
        assert compositePartIdIndex.Keys == index.Keys + {id.value};
        ContentsFrom();
      }
    }

    /** The rest of a creation, once the id and the document are there. */
    method CreateComponent(documentation: Document, ghost index: map<int, CompositePart>, ghost docs: map<int, Document>,
                           ghost live: set<AtomicPart>) returns (created: Option<CompositePart>)
      requires documentBuilder.Valid() && atomicPartBuilder.Valid() && numAtomicPerComp >= 1
      requires documentBuilder.idPool != atomicPartBuilder.idPool
      requires index == compositePartIdIndex && live == Live() && PartsOk(index, docs, live, numAtomicPerComp)
      requires documentation.compositePartId !in index && documentation !in Documents(docs)
      requires documentBuilder.documentTitleIndex == docs[documentation.compositePartId := documentation]
      modifies this`compositePartIdIndex, documentBuilder`documentTitleIndex, documentation`part
      modifies atomicPartBuilder`partIdIndex, atomicPartBuilder`partBuildDateIndex
      modifies documentBuilder.idPool`ids, atomicPartBuilder.idPool`ids
      ensures documentBuilder.Valid() && atomicPartBuilder.Valid()
      ensures created.Some? <==> |old(atomicPartBuilder.idPool.ids)| >= numAtomicPerComp
      ensures created.None? ==>
        && compositePartIdIndex == index && documentBuilder.documentTitleIndex == docs
        && atomicPartBuilder.partIdIndex == old(atomicPartBuilder.partIdIndex)
        && (forall date :: Under(atomicPartBuilder.partBuildDateIndex, date) ==
                           Under(old(atomicPartBuilder.partBuildDateIndex), date))
        && PartsOk(index, docs, live, numAtomicPerComp)
      ensures created.Some? ==>
        && var component := created.value;
        && fresh(component) && component.usedIn == [] && component.id == documentation.compositePartId
        && compositePartIdIndex == index[component.id := component]
        && Live() == live + component.parts && component.parts !! live
        && PartsOk(compositePartIdIndex, documentBuilder.documentTitleIndex, Live(), numAtomicPerComp)
        && FullyConnected(component, numConnPerAtomic)
    {
      hide Partition, DatesAgree, PartsOk, PartOk, Keyed, DocumentsKeyed, DocumentIds, InWidenedInterval, RingIn, Ring;
      hide DocumentBuilder.Valid;
      hide WellConnected, AllDifferent, Under, FullyConnected;
      ghost var parts0, dates0 := atomicPartBuilder.partIdIndex, atomicPartBuilder.partBuildDateIndex;
      ghost var composites, documents := Values(index), Documents(docs);
      SameKeys(index, docs, live, numAtomicPerComp);
      var complete, parts := CreateAtomicParts(atomicPartBuilder, numAtomicPerComp);
      assert Keyed(atomicPartBuilder.partIdIndex);
      if !complete {
        UndoComponent(documentation, parts, index, docs, live);
        SameEntriesSameIndex(parts0, atomicPartBuilder.partIdIndex);
        SameIndex(live, dates0, atomicPartBuilder.partBuildDateIndex);
        return None;
      }
      var component := ConnectComponent(documentation, parts, index, docs, live);
      created := Some(component);
    }

    /** The handler of a failed creation, but for the id of the composite part. */
    method UndoComponent(documentation: Document, parts: seq<AtomicPart>, ghost index: map<int, CompositePart>,
                         ghost docs: map<int, Document>, ghost live: set<AtomicPart>)
      requires documentBuilder.Valid() && atomicPartBuilder.Valid() && documentBuilder.idPool != atomicPartBuilder.idPool
      requires Live() == live + Elements(parts) && Elements(parts) !! live && AllDifferent(parts)
      requires PartsOk(index, docs, live, numAtomicPerComp)
      requires documentation.compositePartId !in docs && documentation !in Documents(docs)
      requires documentBuilder.documentTitleIndex == docs[documentation.compositePartId := documentation]
      modifies documentBuilder`documentTitleIndex, documentation`part
      modifies parts`x, parts`y, parts`to, parts`from, parts`partOf
      modifies atomicPartBuilder`partIdIndex, atomicPartBuilder`partBuildDateIndex
      modifies documentBuilder.idPool`ids, atomicPartBuilder.idPool`ids
      ensures documentBuilder.Valid() && atomicPartBuilder.Valid() && Keyed(atomicPartBuilder.partIdIndex)
      ensures documentBuilder.documentTitleIndex == docs && Live() == live
      ensures PartsOk(index, docs, live, numAtomicPerComp)
    {
      hide Partition, DatesAgree, PartsOk, PartOk, Keyed, DocumentsKeyed, DocumentIds, InWidenedInterval, RingIn, Ring;
      hide DocumentBuilder.Valid;
      ghost var composites, documents := Values(index), Documents(docs);
      assert forall i :: 0 <= i < |parts| ==> parts[i] in Elements(parts);
      documentBuilder.UnregisterAndRecycleDocument(documentation);
      assert PartsOk(index, docs, live, numAtomicPerComp);
      PutThenRemove(docs, documentation.compositePartId, documentation);
      RemoveAtomicParts(atomicPartBuilder, parts);
      AddThenDrop(live, Elements(parts));
    }

    /** The parts are all there: they are connected and handed to the new component, which is registered. */
    method ConnectComponent(documentation: Document, parts: seq<AtomicPart>, ghost index: map<int, CompositePart>,
                            ghost docs: map<int, Document>, ghost live: set<AtomicPart>) returns (component: CompositePart)
      requires Keyed(atomicPartBuilder.partIdIndex) && Live() == live + Elements(parts) && Elements(parts) !! live
      requires |parts| == numAtomicPerComp >= 1 && AllDifferent(parts) && Unconnected(parts)
      requires index == compositePartIdIndex && PartsOk(index, docs, live, numAtomicPerComp)
      requires documentation.compositePartId !in index && documentation !in Documents(docs)
      modifies this`compositePartIdIndex, documentation`part, parts`to, parts`from, parts`partOf
      ensures fresh(component) && component.usedIn == [] && component.id == documentation.compositePartId
      ensures component.parts == Elements(parts) && compositePartIdIndex == index[component.id := component]
      ensures PartsOk(compositePartIdIndex, docs[component.id := documentation], live + component.parts, numAtomicPerComp)
      ensures FullyConnected(component, numConnPerAtomic)
    {
      hide DatesAgree, PartsOk, PartOk, Keyed, InWidenedInterval, RingIn, Ring, WellConnected, AllDifferent;
      ghost var composites, documents := Values(index), Documents(docs);
      assert forall i :: 0 <= i < |parts| ==> parts[i] in Elements(parts);
      CreateConnections(parts, numConnPerAtomic);
      IdsDiffer(atomicPartBuilder.partIdIndex, parts);
      component := Assemble(documentation.compositePartId, documentation, parts);
      NewPartOk(index, docs, live, component, documentation, parts, numAtomicPerComp);
      OneMorePart(index, docs, live, numAtomicPerComp, component, documentation);
      compositePartIdIndex := compositePartIdIndex[component.id := component];
    }

    /** The part is removed together with its document and its atomic parts, and no assembly uses it any more. */
    method UnregisterAndRecycleCompositePart(compositePart: CompositePart, ghost bases: set<BaseAssembly>)
      requires Valid() && compositePart in Composites()
      requires OwnedBy(compositePart, bases) && DistinctBases(bases) && OnlyOneWithId(compositePart, bases)
      modifies this`compositePartIdIndex, documentBuilder`documentTitleIndex
      modifies atomicPartBuilder`partIdIndex, atomicPartBuilder`partBuildDateIndex
      modifies idPool`ids, documentBuilder.idPool`ids, atomicPartBuilder.idPool`ids
      modifies compositePart`usedIn, compositePart`documentation, compositePart`parts, compositePart`rootPart
      modifies compositePart.parts`x, compositePart.parts`y, compositePart.parts`to, compositePart.parts`from
      modifies compositePart.parts`partOf
      modifies Documents(documentBuilder.documentTitleIndex)`part, bases`components
      ensures Valid()
      ensures compositePartIdIndex == old(compositePartIdIndex) - {compositePart.id}
      ensures idPool.ids == old(idPool.ids) + [compositePart.id]
      ensures forall b :: b in bases ==> b.components == Dropped(old(b.components), compositePart)
      ensures compositePart.usedIn == [] && compositePart.documentation == null
      ensures compositePart.parts == {} && compositePart.rootPart == null
      ensures forall p :: p in old(compositePart.parts) ==> p.to == [] && p.from == [] && p.partOf == null
    {
      hide Partition, DatesAgree, PartsOk, PartOk, Keyed, DocumentsKeyed, DocumentIds, InWidenedInterval, RingIn, Ring;
      hide DocumentBuilder.Valid, AtomicPartBuilder.Valid;
      hide OwnedBy, DistinctBases, OnlyOneWithId, Dropped;
      ghost var index, docs, live := compositePartIdIndex, documentBuilder.documentTitleIndex, Live();
      var id := compositePart.id;
      TakenApart(index, docs, live, numAtomicPerComp, compositePart);
      ghost var composites, documents := Values(index - {id}), Documents(docs - {id});
      ghost var left := live - compositePart.parts;
      assert PartsOk(index - {id}, docs - {id}, left, numAtomicPerComp);
      compositePartIdIndex := compositePartIdIndex - {id};
      RecycleContents(compositePart);
      assert PartsOk(compositePartIdIndex, docs - {id}, left, numAtomicPerComp);
      assert Live() == left;
      PartitionPut(id, idPool.ids, index.Keys, maxCompParts);
      Release(compositePart, bases);
    }

    /** The last steps: no assembly uses the part any more, and its id goes back. */
    method Release(compositePart: CompositePart, ghost bases: set<BaseAssembly>)
      requires OwnedBy(compositePart, bases) && DistinctBases(bases) && OnlyOneWithId(compositePart, bases)
      requires idPool != documentBuilder.idPool && idPool != atomicPartBuilder.idPool
      requires documentBuilder.idPool != atomicPartBuilder.idPool
      requires documentBuilder.Valid() && atomicPartBuilder.Valid() && numAtomicPerComp >= 1
      requires Partition(idPool.ids + [compositePart.id], compositePartIdIndex.Keys, maxCompParts)
      requires PartsOk(compositePartIdIndex, documentBuilder.documentTitleIndex, Live(), numAtomicPerComp)
      requires compositePart !in Composites()
      modifies idPool`ids, bases`components
      modifies compositePart`usedIn, compositePart`documentation, compositePart`parts, compositePart`rootPart
      ensures Valid() && idPool.ids == old(idPool.ids) + [compositePart.id]
      ensures forall b :: b in bases ==> b.components == Dropped(old(b.components), compositePart)
      ensures compositePart.usedIn == [] && compositePart.documentation == null
      ensures compositePart.parts == {} && compositePart.rootPart == null
    {
      hide Partition, DatesAgree, PartsOk, PartOk, Keyed, DocumentsKeyed, DocumentIds, InWidenedInterval, RingIn, Ring;
      hide OwnedBy, DistinctBases, OnlyOneWithId, Dropped;
      ghost var composites, documents := Composites(), Documents(documentBuilder.documentTitleIndex);
      RemoveFromOwners(compositePart, bases);
      compositePart.ClearPointers();
      idPool.PutUnusedId(compositePart.id);
    }

    lemma OneRecycled(live: set<AtomicPart>, parts: set<AtomicPart>, rest: set<AtomicPart>, part: AtomicPart)
      requires part in rest && rest <= parts
      ensures live - (parts - rest) - {part} == live - (parts - (rest - {part}))
    {
    }

    method RecycleContents(compositePart: CompositePart)
      requires documentBuilder.Valid() && atomicPartBuilder.Valid() && documentBuilder.idPool != atomicPartBuilder.idPool
      requires compositePart.documentation != null && compositePart.documentation.compositePartId == compositePart.id
      requires compositePart.id in documentBuilder.documentTitleIndex
      requires documentBuilder.documentTitleIndex[compositePart.id] == compositePart.documentation
      requires compositePart.parts <= Live()
      modifies documentBuilder`documentTitleIndex, documentBuilder.idPool`ids, compositePart.documentation`part
      modifies atomicPartBuilder`partIdIndex, atomicPartBuilder`partBuildDateIndex, atomicPartBuilder.idPool`ids
      modifies compositePart.parts`x, compositePart.parts`y, compositePart.parts`to, compositePart.parts`from
      modifies compositePart.parts`partOf
      ensures documentBuilder.Valid() && atomicPartBuilder.Valid()
      ensures documentBuilder.documentTitleIndex == old(documentBuilder.documentTitleIndex) - {compositePart.id}
      ensures Live() == old(Live()) - compositePart.parts
      ensures forall p :: p in compositePart.parts ==> p.to == [] && p.from == [] && p.partOf == null
    {
      hide Partition, DatesAgree, Keyed, DocumentsKeyed, DocumentIds, InWidenedInterval, DocumentBuilder.Valid;
      ghost var live := Live();
      documentBuilder.UnregisterAndRecycleDocument(compositePart.documentation);
      var rest := compositePart.parts;
      while rest != {}
        invariant rest <= compositePart.parts && rest <= Live()
        invariant documentBuilder.Valid() && atomicPartBuilder.Valid()
        invariant documentBuilder.documentTitleIndex == old(documentBuilder.documentTitleIndex) - {compositePart.id}
        invariant Live() == old(Live()) - (compositePart.parts - rest)
        invariant forall p :: p in compositePart.parts - rest ==> p.to == [] && p.from == [] && p.partOf == null
        decreases |rest|
      {
        var atomicPart :| atomicPart in rest;
        RemoveEntry(atomicPartBuilder.partIdIndex, atomicPart);
        OneRecycled(live, compositePart.parts, rest, atomicPart);
        atomicPartBuilder.UnregisterAndRecycleAtomicPart(atomicPart);
        rest := rest - {atomicPart};
      }
    }
  }

  lemma Distribute(n: int, max: int, used: int)
    ensures max * n - n * used == n * (max - used)
    ensures n >= 1 && max > used ==> n * (max - used) >= n
  {
    if n >= 1 && max > used {
      assert n * (max - used) == n + n * (max - used - 1);
    }
  }

  lemma {:induction false} EntryCount(index: map<int, AtomicPart>, keys: set<int>)
    requires Keyed(index) && keys <= index.Keys
    ensures |set k | k in keys :: index[k]| == |keys|
    ensures keys == index.Keys ==> |Entries(index)| == |index|
  {
    if keys != {} {
      var k := PickOne(keys);
      EntryCount(index, keys - {k});
      assert (set j | j in keys :: index[j]) == (set j | j in keys - {k} :: index[j]) + {index[k]};
    }
    assert keys == index.Keys ==> Entries(index) == set k | k in keys :: index[k];
  }
}
