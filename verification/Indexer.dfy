/** The secondary indexes of a directory: one tree per field or composite of fields, each
    listing the documents that have all of its fields. */
module Indexer {
  import opened Lists
  import opened SortOrder
  import opened TreeInvariant
  import opened LeafOrder
  import opened Ranges
  import opened Merge
  import opened Bpt

  /** The sort fields of an index, as its name spells them. */
  type IndexName = seq<SortField>

  const ID := SortField(ID_FIELD, false)

  const ORDER: Order := 100

  /** The fields a tree sorts by: those of the index, then the document id. */
  function TreeFields(n: IndexName): seq<SortField>
  {
    if n == [ID] then [ID] else n + [ID]
  }

  function Single(f: string): IndexName
  {
    [SortField(f, false)]
  }

  /** The document has every field of the index. */
  predicate Has(doc: Doc, n: IndexName)
  {
    forall i {:trigger n[i]} :: 0 <= i < |n| ==> n[i].name == ID_FIELD || n[i].name in doc
  }

  ghost predicate Wants(docs: Docs, n: IndexName, x: DocId)
  {
    x in docs && Has(docs[x], n)
  }

  /** A document with all fields has a full sort key. */
  lemma {:induction false} HasIsFull(n: IndexName, id: DocId, doc: Doc)
    requires Has(doc, n)
    ensures EndsWithId(TreeFields(n)) && Full(Pick(TreeFields(n), Some(id), doc))
  {
    var fs := TreeFields(n);
    var k := Pick(fs, Some(id), doc);
    forall i | 0 <= i < |k.parts| ensures k.parts[i].Some? {
      if i < |n| { assert fs[i] == n[i]; } else { assert fs[i] == ID; }
    }
  }

  /** Only such a document has. */
  lemma {:induction false} HasIsFullKey(n: IndexName, id: DocId, doc: Doc)
    ensures Has(doc, n) <==> Full(Pick(TreeFields(n), Some(id), doc))
  {
    if Full(Pick(TreeFields(n), Some(id), doc)) {
      var fs := TreeFields(n);
      forall i | 0 <= i < |n| ensures n[i].name == ID_FIELD || n[i].name in doc {
        assert fs[i] == n[i] && Pick(fs, Some(id), doc).parts[i] in Pick(fs, Some(id), doc).parts;
      }
    } else if Has(doc, n) {
      HasIsFull(n, id, doc);
    }
  }

  /** Two documents agree on the fields of the index. */
  ghost predicate SameFields(a: Doc, b: Doc, n: IndexName)
  {
    forall i {:trigger n[i]} :: 0 <= i < |n| && n[i].name != ID_FIELD ==>
      (n[i].name in a <==> n[i].name in b) && (n[i].name in a ==> a[n[i].name] == b[n[i].name])
  }

  /** What index n lists, in a snapshot of all lists. */
  ghost function Listed(e: map<IndexName, seq<DocId>>, n: IndexName): seq<DocId>
  {
    if n in e then e[n] else []
  }

  /** Every document with all the fields is listed in the snapshot. */
  ghost predicate Covered(docs: Docs, e: map<IndexName, seq<DocId>>, n: IndexName)
  {
    forall x {:trigger x in Listed(e, n)} {:trigger Wants(docs, n, x)} :: Wants(docs, n, x) ==> x in Listed(e, n)
  }

  class Indexer {
    var docs: Docs
    var indexes: set<IndexName>
    var trees: map<IndexName, BPT>

    /** The documents index n lists, in order; an index without a tree lists none. */
    ghost function Entries(n: IndexName): seq<DocId>
      reads this`trees, trees.Values
    {
      if n in trees then trees[n].Entries() else []
    }

    /** The tree of n, if there is one, is a valid index of d. */
    ghost predicate Tree(n: IndexName, d: Docs)
      reads this`trees, trees.Values
    {
      n in trees ==> trees[n].fields == TreeFields(n) && trees[n].Valid(d)
    }

    ghost predicate Separate()
      reads this`trees
    {
      forall m, n {:trigger trees[m], trees[n]} :: m in trees && n in trees && m != n ==> trees[m] != trees[n]
    }

    /** The index of all documents, or of one field, ascending. */
    static predicate Basic(n: IndexName)
    {
      |n| == 1 && !n[0].desc
    }

    /** No index is dropped, and what is new is over one field. */
    static ghost predicate FieldsAdded(a: set<IndexName>, b: set<IndexName>)
    {
      a <= b && forall n {:trigger n in b} :: n in b && n !in a ==> Basic(n)
    }

    /** Every document with all the fields is listed. */
    ghost predicate Complete(n: IndexName)
      reads this`docs, this`trees, trees.Values
    {
      forall x {:trigger x in Entries(n)} {:trigger Wants(docs, n, x)} :: Wants(docs, n, x) ==> x in Entries(n)
    }

    /** Only such documents are listed. */
    ghost predicate Sound(n: IndexName)
      reads this`docs, this`trees, trees.Values
    {
      forall x {:trigger x in Entries(n)} :: x in Entries(n) ==> Wants(docs, n, x)
    }

    ghost predicate Valid()
      reads this, trees.Values
    {
      && Separate()
      && (forall n {:trigger Tree(n, docs)} :: Tree(n, docs))
      && (forall n {:trigger Sound(n)} :: Sound(n))
      && (forall n {:trigger Complete(n)} :: Basic(n) ==> Complete(n))
      && (forall n {:trigger Entries(n)} :: Entries(n) != [] && n != [ID] ==> n in indexes && Width(n) > 0)
      && (forall x {:trigger docs[x]} :: x in docs ==> ID_FIELD !in docs[x])
    }

    constructor ()
      ensures Valid() && docs == map[] && indexes == {} && trees == map[]
    {
      docs, indexes, trees := map[], {}, map[];
    }

    /** Trees are only ever added, and each keeps its index. */
    static ghost predicate Grew(a: map<IndexName, BPT>, b: map<IndexName, BPT>)
    {
      forall n {:trigger n in a} {:trigger n in b} :: n in a ==> n in b && b[n] == a[n]
    }

    // ----- one tree at a time

    /** The tree kept under the name of an index. */
    method Open(n: IndexName, ghost d: Docs) returns (o: BPT)
      requires Separate() && Tree(n, d)
      modifies this`trees
      ensures Separate() && trees == old(trees)[n := o]
      ensures n in old(trees) ==> o == old(trees)[n]
      ensures n !in old(trees) ==> fresh(o)
      ensures o.fields == TreeFields(n) && o.Valid(d) && o.Entries() == old(Entries(n))
    {
      hide BPT.Valid, BPT.Entries;
      if n in trees {
        o := trees[n];
      } else {
        o := new BPT(ORDER, TreeFields(n));
        trees := trees[n := o];
      }
    }

    /** Inserts a document into one index. */
    method InsertInto(n: IndexName, d: Docs, id: DocId, val: Doc)
      requires Separate() && Tree(n, d) && Has(val, n) && id !in Entries(n)
      modifies this`trees, if n in trees then {trees[n]} else {}
      ensures Separate() && trees.Keys == old(trees).Keys + {n}
      ensures forall m {:trigger trees[m]} :: m in old(trees) ==> trees[m] == old(trees)[m]
      ensures n !in old(trees) ==> fresh(trees[n])
      ensures Tree(n, d[id := val])
      ensures forall x {:trigger x in Entries(n)} :: x in Entries(n) <==> x in old(Entries(n)) || x == id
      ensures forall m {:trigger Entries(m)} :: m != n ==> Entries(m) == old(Entries(m))
      ensures forall m, f {:trigger Tree(m, f)} :: m != n ==> Tree(m, f) == old(Tree(m, f))
    {
      hide BPT.Valid, BPT.Entries, KeyOf, Pick, Full, Has;
      ghost var t0 := trees;
      var o := Open(n, d);
      AddTo(o, n, d, id, val);
      forall m | m != n
          ensures Entries(m) == old(Entries(m)) && forall f {:trigger Tree(m, f)} :: Tree(m, f) == old(Tree(m, f)) {
        if m in t0 { assert trees[m] == t0[m] && (n in t0 ==> t0[m] != t0[n]); }
      }
    }

    /** The tree of index n takes in a document. */
    static method AddTo(o: BPT, n: IndexName, d: Docs, id: DocId, val: Doc)
      requires o.fields == TreeFields(n) && o.Valid(d) && Has(val, n) && id !in o.Entries()
      modifies o
      ensures o.Valid(d[id := val])
      ensures forall x {:trigger x in o.Entries()} :: x in o.Entries() <==> x in old(o.Entries()) || x == id
    {
      hide BPT.Valid, BPT.Entries, KeyOf, Pick, Full, Has;
      HasIsFull(n, id, val);
      var d' := o.Insert(d, id, Some(val));
      ghost var p: nat :| p <= |old(o.Entries())| && o.Entries() == Inserted(old(o.Entries()), p, id);
    }

    /** The index stays valid when its documents keep the fields it sorts by. */
    lemma {:induction false} Reframe(n: IndexName, d: Docs, d': Docs)
      requires Tree(n, d)
      requires forall x {:trigger x in Entries(n)} :: x in Entries(n) ==>
        x in d && x in d' && SameFields(d[x], d'[x], n)
      ensures Tree(n, d')
    {
      hide BPT.Valid, BPT.Entries;
      if n in trees {
        forall x | x in trees[n].Entries()
            ensures x in d' && KeyOf(TreeFields(n), d', x) == KeyOf(TreeFields(n), d, x) {
          assert x in Entries(n);
        }
        trees[n].DocsFrame(d, d');
      }
    }

    /** Takes a document out of one index, if it is there. */
    method DeleteFrom(n: IndexName, d: Docs, id: DocId)
      requires Separate() && Tree(n, d) && forall x {:trigger x in Entries(n)} :: x in Entries(n) ==> x in d
      modifies this`trees, if n in trees then {trees[n]} else {}
      ensures Separate() && trees.Keys == old(trees).Keys + {n}
      ensures forall m {:trigger trees[m]} :: m in old(trees) ==> trees[m] == old(trees)[m]
      ensures n !in old(trees) ==> fresh(trees[n])
      ensures Tree(n, d - {id})
      ensures forall x {:trigger x in Entries(n)} :: x in Entries(n) <==> x in old(Entries(n)) && x != id
      ensures forall m {:trigger Entries(m)} :: m != n ==> Entries(m) == old(Entries(m))
      ensures forall m, f {:trigger Tree(m, f)} :: m != n ==> Tree(m, f) == old(Tree(m, f))
    {
      hide BPT.Valid, BPT.Entries;
      ghost var t0 := trees;
      var o := Open(n, d);
      RemoveFrom(o, n, d, id);
      forall m | m != n
          ensures Entries(m) == old(Entries(m)) && forall f {:trigger Tree(m, f)} :: Tree(m, f) == old(Tree(m, f)) {
        if m in t0 { assert trees[m] == t0[m] && (n in t0 ==> t0[m] != t0[n]); }
      }
    }

    /** The tree of index n gives up a document. */
    static method RemoveFrom(o: BPT, n: IndexName, d: Docs, id: DocId)
      requires o.fields == TreeFields(n) && o.Valid(d)
      requires forall x {:trigger x in o.Entries()} :: x in o.Entries() ==> x in d
      modifies o
      ensures o.Valid(d - {id})
      ensures forall x {:trigger x in o.Entries()} :: x in o.Entries() <==> x in old(o.Entries()) && x != id
    {
      hide BPT.Valid, BPT.Entries, KeyOf;
      ghost var c := o.Entries();
      var d' := o.Delete(d, id);
      if id in c {
        ghost var p: nat :| p < |c| && c[p] == id && o.Entries() == c[..p] + c[p + 1..];
      } else {
        forall x | x in o.Entries() ensures x in d - {id} && KeyOf(o.fields, d - {id}, x) == KeyOf(o.fields, d, x) {
          SameDocSameKey(o.fields, d, d - {id}, x);
        }
        o.DocsFrame(d, d - {id});
      }
    }

    static lemma {:induction false} SameDocSameKey(fields: seq<SortField>, d: Docs, d': Docs, x: DocId)
      requires x in d && x in d' && d'[x] == d[x]
      ensures KeyOf(fields, d', x) == KeyOf(fields, d, x)
    {
    }

    // ----- a new document

    /** Every index in `done` gained id, the others are as they were listed in e. */
    ghost predicate Gained(e: map<IndexName, seq<DocId>>, done: set<IndexName>, id: DocId)
      reads this`trees, trees.Values
    {
      forall n, x {:trigger x in Entries(n)} :: x in Entries(n) <==> x in Listed(e, n) || (n in done && x == id)
    }

    /** Inserts a document into an index that does not list it yet. */
    method Gain(n: IndexName, id: DocId, val: Doc, ghost e: map<IndexName, seq<DocId>>, ghost done: set<IndexName>)
      requires Separate()
      requires forall m {:trigger Tree(m, docs)} :: Tree(m, docs)
      requires docs[id := val] == docs && Has(val, n)
      requires Gained(e, done, id) && n !in done && id !in Listed(e, n)
      modifies this`trees, if n in trees then {trees[n]} else {}
      ensures Separate()
      ensures forall m {:trigger Tree(m, docs)} :: Tree(m, docs)
      ensures Gained(e, done + {n}, id) && Grew(old(trees), trees) && fresh(trees.Values - old(trees.Values))
    {
      hide BPT.Valid, BPT.Entries;
      InsertInto(n, docs, id, val);
      forall m ensures Tree(m, docs) { assert old(Tree(m, docs)); }
      forall m, x ensures x in Entries(m) <==> x in Listed(e, m) || (m in done + {n} && x == id) {
        assert old(x in Entries(m)) <==> x in Listed(e, m) || (m in done && x == id);
      }
    }

    /** Documents that stay the same keep every tree valid. */
    lemma {:induction false} ReframeAll(d: Docs, d': Docs)
      requires forall m {:trigger Tree(m, d)} :: Tree(m, d)
      requires forall m, x {:trigger x in Entries(m)} :: x in Entries(m) ==> x in d && x in d' && d'[x] == d[x]
      ensures forall m {:trigger Tree(m, d')} :: Tree(m, d')
    {
      hide BPT.Valid, BPT.Entries;
      forall m ensures Tree(m, d') {
        assert Tree(m, d);
        Reframe(m, d, d');
      }
    }

    /** How many fields other than the document id an index has. */
    static function Width(n: IndexName): nat
    {
      if n == [] then 0 else (if n[0].name == ID_FIELD then 0 else 1) + Width(n[1..])
    }

    /** The new document enters the index of each of its fields. */
    method GainFields(id: DocId, data: Doc, ghost e: map<IndexName, seq<DocId>>)
        returns (added: set<IndexName>, ghost done: set<IndexName>)
      requires Separate()
      requires forall m {:trigger Tree(m, docs)} :: Tree(m, docs)
      requires docs[id := data] == docs && ID_FIELD !in data
      requires Gained(e, {[ID]}, id) && forall n {:trigger Listed(e, n)} :: id !in Listed(e, n)
      modifies this`trees, trees.Values
      ensures Separate()
      ensures forall m {:trigger Tree(m, docs)} :: Tree(m, docs)
      ensures Grew(old(trees), trees) && fresh(trees.Values - old(trees.Values)) && Gained(e, done, id)
      ensures done == {[ID]} + added && (forall f {:trigger Single(f)} :: f in data ==> Single(f) in added)
      ensures forall n {:trigger n in added} :: n in added ==> Basic(n) && Has(data, n) && Width(n) > 0
    {
      hide BPT.Valid, BPT.Entries;
      var todo := data.Keys;
      added, done := {}, {[ID]};
      while todo != {}
        invariant todo <= data.Keys && Separate()
        invariant forall m {:trigger Tree(m, docs)} :: Tree(m, docs)
        invariant Grew(old(trees), trees) && fresh(trees.Values - old(trees.Values)) && Gained(e, done, id)
        invariant done == {[ID]} + added
        invariant forall f {:trigger Single(f)} :: f in data && f !in todo ==> Single(f) in added
        invariant forall n: IndexName {:trigger n in added} :: n in added ==>
          Basic(n) && Has(data, n) && Width(n) > 0 && n[0].name in data && n[0].name !in todo
      {
        var f :| f in todo;
        assert [ID] != Single(f) && Single(f) !in added;
        assert Single(f)[1..] == [];
        Gain(Single(f), id, data, e, done);
        added, done := added + {Single(f)}, done + {Single(f)};
        todo := todo - {f};
      }
    }

    /** The new document enters the composite indexes whose fields it has. */
    method GainComposites(id: DocId, data: Doc, ghost e: map<IndexName, seq<DocId>>, ghost done0: set<IndexName>)
        returns (ghost done: set<IndexName>)
      requires Separate() && (forall m {:trigger Tree(m, docs)} :: Tree(m, docs)) && docs[id := data] == docs
      requires Gained(e, done0, id)
      requires forall n {:trigger Listed(e, n)} :: id !in Listed(e, n)
      requires forall n {:trigger n in done0} :: n in done0 ==> Basic(n)
      modifies this`trees, trees.Values
      ensures Separate()
      ensures forall m {:trigger Tree(m, docs)} :: Tree(m, docs)
      ensures Grew(old(trees), trees) && fresh(trees.Values - old(trees.Values)) && Gained(e, done, id)
      ensures forall n {:trigger n in done} :: n in done <==>
        n in done0 || (n in indexes && Width(n) > 1 && Has(data, n))
    {
      hide BPT.Valid, BPT.Entries;
      var todo := indexes;
      done := done0;
      while todo != {}
        invariant todo <= indexes && Separate()
        invariant forall m {:trigger Tree(m, docs)} :: Tree(m, docs)
        invariant Grew(old(trees), trees) && fresh(trees.Values - old(trees.Values)) && Gained(e, done, id)
        invariant forall n {:trigger n in done} :: n in done <==>
          n in done0 || (n in indexes && n !in todo && Width(n) > 1 && Has(data, n))
      {
        var n :| n in todo;
        if Width(n) > 1 && Has(data, n) {
          BasicWidth(n);
          Gain(n, id, data, e, done);
          done := done + {n};
        }
        todo := todo - {n};
      }
    }

    /** Whether an index has a field besides the id, or more than one. */
    static lemma {:induction false} WidthIs(n: IndexName)
      ensures Width(n) > 0 <==> exists i {:trigger n[i]} :: 0 <= i < |n| && n[i].name != ID_FIELD
      ensures Width(n) > 1 <==> exists i, j {:trigger n[i], n[j]} ::
          0 <= i < j < |n| && n[i].name != ID_FIELD && n[j].name != ID_FIELD
    {
      if n != [] {
        WidthIs(n[1..]);
        assert forall i {:trigger n[i]} :: 1 <= i < |n| ==> n[i] == n[1..][i - 1];
        assert forall i {:trigger n[1..][i]} :: 0 <= i < |n| - 1 ==> n[i + 1] == n[1..][i];
        if Width(n) > 1 {
          if n[0].name != ID_FIELD {
            var j :| 0 <= j < |n[1..]| && n[1..][j].name != ID_FIELD;
            assert n[0] == n[0] && n[j + 1].name != ID_FIELD;
          } else {
            var i, j :| 0 <= i < j < |n[1..]| && n[1..][i].name != ID_FIELD && n[1..][j].name != ID_FIELD;
            assert n[i + 1].name != ID_FIELD && n[j + 1].name != ID_FIELD;
          }
        }
      }
    }

    static lemma {:induction false} BasicWidth(n: IndexName)
      ensures Basic(n) ==> Width(n) <= 1
    {
      if Basic(n) { assert n[1..] == []; }
    }

    /** The new document enters every index it belongs to. */
    method Enter(id: DocId, data: Doc, ghost e: map<IndexName, seq<DocId>>)
        returns (added: set<IndexName>, ghost done: set<IndexName>)
      requires Separate()
      requires forall m {:trigger Tree(m, docs)} :: Tree(m, docs)
      requires docs[id := data] == docs && ID_FIELD !in data
      requires Gained(e, {}, id) && forall n {:trigger Listed(e, n)} :: id !in Listed(e, n)
      modifies this`trees, trees.Values
      ensures Separate()
      ensures forall m {:trigger Tree(m, docs)} :: Tree(m, docs)
      ensures Grew(old(trees), trees) && fresh(trees.Values - old(trees.Values)) && Gained(e, done, id)
      ensures forall n {:trigger n in done} :: n in done <==>
        n in {[ID]} + added || (n in indexes && Width(n) > 1 && Has(data, n))
      ensures forall f {:trigger Single(f)} :: f in data ==> Single(f) in added
      ensures forall n {:trigger n in added} :: n in added ==> Basic(n) && Has(data, n) && Width(n) > 0
    {
      hide BPT.Valid, BPT.Entries;
      Gain([ID], id, data, e, {});
      added, done := GainFields(id, data, e);
      done := GainComposites(id, data, e, done);
    }

    /** What every index lists, and what that amounts to. */
    lemma {:induction false} Snapshot() returns (e: map<IndexName, seq<DocId>>)
      requires Valid()
      ensures forall n {:trigger Listed(e, n)} {:trigger Entries(n)} :: Listed(e, n) == Entries(n)
      ensures forall n, x {:trigger x in Listed(e, n)} :: x in Listed(e, n) ==> Wants(docs, n, x)
      ensures forall n, x {:trigger x in Listed(e, n)} :: Basic(n) && Wants(docs, n, x) ==> x in Listed(e, n)
      ensures forall n {:trigger Listed(e, n)} :: Listed(e, n) != [] && n != [ID] ==> n in indexes && Width(n) > 0
    {
      e := map n | n in trees :: trees[n].Entries();
      forall n, x | x in Listed(e, n) ensures Wants(docs, n, x) { assert Sound(n) && x in Entries(n); }
      forall n, x | Basic(n) && Wants(docs, n, x) ensures x in Listed(e, n) { assert Complete(n); }
      forall n | Listed(e, n) != [] && n != [ID] ensures n in indexes && Width(n) > 0 { assert Entries(n) != []; }
    }

    /** Stores a document under a new id and lists it in every index it belongs to. */
    method Create(id: DocId, data: Doc)
      requires Valid() && id !in docs && ID_FIELD !in data
      modifies this, trees.Values
      ensures Valid() && docs == old(docs)[id := data] && Grew(old(trees), trees)
      ensures fresh(trees.Values - old(trees.Values)) && FieldsAdded(old(indexes), indexes)
      ensures forall n {:trigger Complete(n)} :: Width(n) > 1 && n in old(indexes) && old(Complete(n)) ==> Complete(n)
      ensures forall n {:trigger id in Entries(n)} :: n in old(indexes) && Has(data, n) ==>
        (id in Entries(n) <==> Basic(n) || Width(n) > 1)
    {
      hide BPT.Valid, BPT.Entries, Tree, Entries, Sound, Gained, Has, Basic, TreeFields, Listed;
      ghost var d0 := docs;
      ghost var e := Snapshot();
      StartGain(id, data, e);
      docs := docs[id := data];
      var added, done := Enter(id, data, e);
      indexes := indexes + {[ID]} + added;
      BasicId();
      Created(id, data, d0, e, old(indexes), done, added);
    }

    lemma {:induction false} StartGain(id: DocId, data: Doc, e: map<IndexName, seq<DocId>>)
      requires Valid() && id !in docs
      requires forall n {:trigger Listed(e, n)} {:trigger Entries(n)} :: Listed(e, n) == Entries(n)
      requires forall n, x {:trigger x in Listed(e, n)} :: x in Listed(e, n) ==> Wants(docs, n, x)
      ensures Gained(e, {}, id) && forall n {:trigger Listed(e, n)} :: id !in Listed(e, n)
      ensures forall n {:trigger Tree(n, docs[id := data])} :: Tree(n, docs[id := data])
    {
      hide BPT.Valid, BPT.Entries, Tree, Entries, Has, Basic, TreeFields, Listed;
      forall n, x | x in Entries(n) ensures x in docs && x in docs[id := data] && docs[id := data][x] == docs[x] {
        assert x in Listed(e, n);
      }
      ReframeAll(docs, docs[id := data]);
      assert forall n {:trigger Listed(e, n)} :: id in Listed(e, n) ==> Wants(docs, n, id);
    }

    /** What the index lists amount to after a document was created. */
    lemma {:induction false} Created(id: DocId, data: Doc, d0: Docs, e: map<IndexName, seq<DocId>>,
        indexes0: set<IndexName>, done: set<IndexName>, added: set<IndexName>)
      requires docs == d0[id := data] && id !in d0 && ID_FIELD !in data && Gained(e, done, id)
      requires forall n, x {:trigger x in Listed(e, n)} :: x in Listed(e, n) ==> Wants(d0, n, x)
      requires forall n, x {:trigger x in Listed(e, n)} :: Basic(n) && Wants(d0, n, x) ==> x in Listed(e, n)
      requires forall n {:trigger Listed(e, n)} :: Listed(e, n) != [] && n != [ID] ==> n in indexes0 && Width(n) > 0
      requires indexes == indexes0 + {[ID]} + added
      requires forall n {:trigger n in done} :: n in done <==>
        n in {[ID]} + added || (n in indexes0 && Width(n) > 1 && Has(data, n))
      requires forall f {:trigger Single(f)} :: f in data ==> Single(f) in added
      requires forall n {:trigger n in added} :: n in added ==> Basic(n) && Has(data, n) && Width(n) > 0
      ensures forall n {:trigger Sound(n)} :: Sound(n)
      ensures forall n {:trigger Complete(n)} :: Basic(n) ==> Complete(n)
      ensures forall n {:trigger Entries(n)} :: Entries(n) != [] && n != [ID] ==> n in indexes && Width(n) > 0
      ensures forall n {:trigger Complete(n)} ::
        Width(n) > 1 && n in indexes0 && (forall x :: Wants(d0, n, x) ==> x in Listed(e, n)) ==> Complete(n)
      ensures forall n {:trigger id in Entries(n)} :: n in indexes0 && Has(data, n) ==>
        (id in Entries(n) <==> Basic(n) || Width(n) > 1)
    {
      hide BPT.Valid, BPT.Entries, Entries, Tree, Listed, TreeFields, Width;
      forall n: IndexName | n in indexes0 && Has(data, n) ensures id in Entries(n) <==> Basic(n) || Width(n) > 1 {
        assert id in Listed(e, n) ==> Wants(d0, n, id);
        if Basic(n) { assert n == Single(n[0].name) && (n == [ID] || n[0].name in data); }
      }
      forall n ensures Sound(n) {
        forall x | x in Entries(n) ensures Wants(docs, n, x) { assert x in Listed(e, n) || (n in done && x == id); }
      }
      forall n: IndexName | Basic(n) ensures Complete(n) {
        forall x | Wants(docs, n, x) ensures x in Entries(n) {
          assert n == Single(n[0].name);
          if x == id { assert n == [ID] || n[0].name in data; } else { assert Wants(d0, n, x); }
        }
      }
      forall n | Entries(n) != [] && n != [ID] ensures n in indexes && Width(n) > 0 {
        var x := Entries(n)[0];
        assert x in Entries(n);
        assert x in Listed(e, n) ==> Listed(e, n) != [];
      }
      forall n | Width(n) > 1 && n in indexes0 && (forall x :: Wants(d0, n, x) ==> x in Listed(e, n))
          ensures Complete(n) {
        forall x | Wants(docs, n, x) ensures x in Entries(n) {
          if x != id { assert Wants(d0, n, x); }
        }
      }
    }

    // ----- a document goes

    /** Every index in `done` lost id, the others list what they did. */
    ghost predicate Lost(e: map<IndexName, seq<DocId>>, done: set<IndexName>, id: DocId, d: Docs)
      reads this`trees, trees.Values
    {
      && (forall n, x {:trigger x in Entries(n)} :: x in Entries(n) <==> x in Listed(e, n) && !(n in done && x == id))
      && (forall n {:trigger Tree(n, d)} {:trigger Tree(n, d - {id})} :: Tree(n, if n in done then d - {id} else d))
    }

    method Lose(n: IndexName, id: DocId, d: Docs, ghost e: map<IndexName, seq<DocId>>, ghost done: set<IndexName>)
      requires Separate() && Lost(e, done, id, d) && n !in done
      requires forall x {:trigger x in Entries(n)} :: x in Entries(n) ==> x in d
      modifies this`trees, if n in trees then {trees[n]} else {}
      ensures Separate() && Lost(e, done + {n}, id, d) && Grew(old(trees), trees)
      ensures fresh(trees.Values - old(trees.Values))
    {
      hide BPT.Valid, BPT.Entries;
      assert Tree(n, d);
      DeleteFrom(n, d, id);
      forall m ensures Tree(m, if m in done + {n} then d - {id} else d) {
        assert old(Tree(m, if m in done then d - {id} else d));
      }
      forall m, x ensures x in Entries(m) <==> x in Listed(e, m) && !(m in done + {n} && x == id) {
        assert old(x in Entries(m)) <==> x in Listed(e, m) && !(m in done && x == id);
      }
    }

    /** The document leaves the indexes whose fields it has. */
    method Leave(id: DocId, ghost e: map<IndexName, seq<DocId>>) returns (ghost done: set<IndexName>)
      requires Separate() && Lost(e, {}, id, docs)
      requires forall n, x {:trigger x in Listed(e, n)} :: x in Listed(e, n) ==> x in docs
      modifies this`trees, trees.Values
      ensures Separate() && Lost(e, done, id, docs) && Grew(old(trees), trees)
      ensures fresh(trees.Values - old(trees.Values))
      ensures forall n {:trigger n in done} :: n in done <==> n in indexes && Width(n) > 0 && Wants(docs, n, id)
    {
      hide BPT.Valid, BPT.Entries, Tree, Has;
      var todo := indexes;
      done := {};
      while todo != {}
        invariant todo <= indexes && Separate() && Lost(e, done, id, docs)
        invariant Grew(old(trees), trees) && fresh(trees.Values - old(trees.Values))
        invariant forall n {:trigger n in done} :: n in done <==>
          n in indexes && n !in todo && Width(n) > 0 && Wants(docs, n, id)
      {
        var n :| n in todo;
        if Width(n) > 0 && id in docs && Has(docs[id], n) {
          Lose(n, id, docs, e, done);
          done := done + {n};
        }
        todo := todo - {n};
      }
    }

    /** The document leaves every index that lists it. */
    method LeaveAll(id: DocId, ghost e: map<IndexName, seq<DocId>>)
      requires Separate() && Lost(e, {}, id, docs)
      requires forall n, x {:trigger x in Listed(e, n)} :: x in Listed(e, n) ==> Wants(docs, n, x)
      requires forall n {:trigger Listed(e, n)} :: Listed(e, n) != [] && n != [ID] ==> n in indexes && Width(n) > 0
      modifies this`trees, trees.Values
      ensures Separate() && Grew(old(trees), trees) && fresh(trees.Values - old(trees.Values))
      ensures forall n {:trigger Tree(n, docs - {id})} :: Tree(n, docs - {id})
      ensures forall n, x {:trigger x in Entries(n)} :: x in Entries(n) <==> x in Listed(e, n) && x != id
    {
      hide BPT.Valid, BPT.Entries, Tree, Entries, Has, Basic, TreeFields, Listed;
      var done := Leave(id, e);
      assert [ID] !in done by { BasicId(); }
      Lose([ID], id, docs, e, done);
      Gone(id, docs, e, done + {[ID]});
    }

    /** Takes a document out of every index and then out of the directory. */
    method Del(id: DocId)
      requires Valid()
      modifies this`docs, this`trees, trees.Values
      ensures Valid() && docs == old(docs) - {id} && Grew(old(trees), trees) && fresh(trees.Values - old(trees.Values))
      ensures forall n {:trigger Complete(n)} :: old(Complete(n)) ==> Complete(n)
    {
      hide BPT.Valid, BPT.Entries, Tree, Entries, Sound, Lost, Has, Width, Basic, TreeFields, Listed;
      ghost var d0 := docs;
      ghost var e := Snapshot();
      StartLoss(id, e);
      LeaveAll(id, e);
      docs := docs - {id};
      Deleted(id, d0, e);
    }

    static lemma {:induction false} BasicId()
      ensures Width([ID]) == 0 && Basic([ID])
    {
      assert [ID][1..] == [];
    }

    lemma {:induction false} StartLoss(id: DocId, e: map<IndexName, seq<DocId>>)
      requires Valid() && forall n {:trigger Listed(e, n)} {:trigger Entries(n)} :: Listed(e, n) == Entries(n)
      ensures Lost(e, {}, id, docs)
    {
      hide BPT.Valid, BPT.Entries;
      forall n ensures Tree(n, docs) {}
    }

    lemma {:induction false} Deleted(id: DocId, d0: Docs, e: map<IndexName, seq<DocId>>)
      requires docs == d0 - {id}
      requires forall n, x {:trigger x in Entries(n)} :: x in Entries(n) <==> x in Listed(e, n) && x != id
      requires forall n, x {:trigger x in Listed(e, n)} :: x in Listed(e, n) ==> Wants(d0, n, x)
      requires forall n, x {:trigger x in Listed(e, n)} :: Basic(n) && Wants(d0, n, x) ==> x in Listed(e, n)
      requires forall n {:trigger Listed(e, n)} :: Listed(e, n) != [] && n != [ID] ==> n in indexes && Width(n) > 0
      ensures forall n {:trigger Sound(n)} :: Sound(n)
      ensures forall n {:trigger Complete(n)} :: Basic(n) ==> Complete(n)
      ensures forall n {:trigger Entries(n)} :: Entries(n) != [] && n != [ID] ==> n in indexes && Width(n) > 0
      ensures forall n {:trigger Complete(n)} :: (forall x :: Wants(d0, n, x) ==> x in Listed(e, n)) ==> Complete(n)
    {
      forall n ensures Sound(n) {
        forall x | x in Entries(n) ensures Wants(docs, n, x) { assert Wants(d0, n, x); }
      }
      forall n | (forall x :: Wants(d0, n, x) ==> x in Listed(e, n)) ensures Complete(n) {
        forall x | Wants(docs, n, x) ensures x in Entries(n) { assert Wants(d0, n, x); }
      }
      forall n | Basic(n) ensures Complete(n) {
        forall x | Wants(d0, n, x) ensures x in Listed(e, n) {}
      }
      forall n | Entries(n) != [] && n != [ID] ensures n in indexes && Width(n) > 0 {
        var x := Entries(n)[0];
        assert x in Entries(n) && Listed(e, n) != [];
      }
    }

    lemma {:induction false} Gone(id: DocId, d: Docs, e: map<IndexName, seq<DocId>>, done: set<IndexName>)
      requires Lost(e, done, id, d) && [ID] in done
      requires forall n, x {:trigger x in Listed(e, n)} :: x in Listed(e, n) ==> Wants(d, n, x)
      requires forall n {:trigger Listed(e, n)} :: Listed(e, n) != [] && n != [ID] ==> n in indexes && Width(n) > 0
      requires forall n {:trigger n in done} :: n in indexes && Width(n) > 0 && Wants(d, n, id) ==> n in done
      ensures forall n {:trigger Tree(n, d - {id})} :: Tree(n, d - {id})
      ensures forall n, x {:trigger x in Entries(n)} :: x in Entries(n) <==> x in Listed(e, n) && x != id
    {
      hide BPT.Valid, BPT.Entries;
      forall n, x ensures x in Entries(n) <==> x in Listed(e, n) && x != id {
        assert x in Listed(e, n) ==> Listed(e, n) != [];
      }
      forall n ensures Tree(n, d - {id}) {
        if n !in done {
          assert Tree(n, d);
          forall x | x in Entries(n) ensures x in d && x in d - {id} && (d - {id})[x] == d[x] {
            assert x in Listed(e, n);
          }
          Reframe(n, d, d - {id});
        }
      }
    }

    // ----- a document changes

    /** What differs between two versions of a document: fields gone, changed, and new. */
    static method Mod(prev: Doc, next: Doc) returns (dels: set<string>, changes: set<string>, news: set<string>)
      ensures dels == set f | f in prev && f !in next
      ensures changes == set f | f in prev && f in next && prev[f] != next[f]
      ensures news == set f | f in next && f !in prev
    {
      dels, changes, news := {}, {}, {};
      var todo := prev.Keys + next.Keys;
      while todo != {}
        invariant todo <= prev.Keys + next.Keys
        invariant dels == set f | f in prev && f !in next && f !in todo
        invariant changes == set f | f in prev && f in next && prev[f] != next[f] && f !in todo
        invariant news == set f | f in next && f !in prev && f !in todo
      {
        var f :| f in todo;
        if f !in prev {
          news := news + {f};
        } else if f !in next {
          dels := dels + {f};
        } else if prev[f] != next[f] {
          changes := changes + {f};
        }
        todo := todo - {f};
      }
    }

    /** The index has one of the fields. */
    static predicate Meets(n: IndexName, fs: set<string>)
    {
      exists i {:trigger n[i]} :: 0 <= i < |n| && n[i].name != ID_FIELD && n[i].name in fs
    }

    /** Halfway through: `now` says which indexes were seen to, and whether they list id now. */
    ghost predicate Shifted(e: map<IndexName, seq<DocId>>, now: map<IndexName, bool>, id: DocId, d: Docs, d': Docs)
      reads this`trees, trees.Values
    {
      && Separate()
      && (forall n, x {:trigger x in Entries(n)} :: x in Entries(n) <==>
        if x == id && n in now then now[n] else x in Listed(e, n))
      && (forall n {:trigger Tree(n, d')} :: n in now ==> Tree(n, d'))
      && (forall n {:trigger Tree(n, d)} :: n !in now ==> Tree(n, d))
    }

    /** Takes id out of an index. */
    method Out(n: IndexName, id: DocId, data: Doc, ghost e: map<IndexName, seq<DocId>>, ghost now: map<IndexName, bool>)
      requires Shifted(e, now, id, docs, docs[id := data]) && n !in now
      requires forall x {:trigger x in Listed(e, n)} :: x in Listed(e, n) ==> x in docs
      modifies this`trees, if n in trees then {trees[n]} else {}
      ensures Shifted(e, now[n := false], id, docs, docs[id := data]) && Grew(old(trees), trees)
      ensures fresh(trees.Values - old(trees.Values))
    {
      hide BPT.Valid, BPT.Entries, Tree, Entries, Listed, TreeFields, Has, Width, Basic;
      ghost var d' := docs[id := data];
      assert Tree(n, docs);
      DeleteFrom(n, docs, id);
      Reframe(n, docs - {id}, d');
      forall m | m in now[n := false] ensures Tree(m, d') { assert m != n ==> old(Tree(m, d')); }
      forall m | m !in now[n := false] ensures Tree(m, docs) { assert old(Tree(m, docs)); }
      forall m, x ensures x in Entries(m) <==>
          if x == id && m in now[n := false] then now[n := false][m] else x in Listed(e, m) {
        assert old(x in Entries(m)) <==> if x == id && m in now then now[m] else x in Listed(e, m);
      }
    }

    /** Puts id, with its new fields, into an index that does not list it. */
    method Into(n: IndexName, id: DocId, data: Doc, ghost e: map<IndexName, seq<DocId>>,
        ghost now: map<IndexName, bool>)
      requires Shifted(e, now, id, docs, docs[id := data]) && Has(data, n)
      requires if n in now then !now[n] else id !in Listed(e, n)
      requires forall x {:trigger x in Listed(e, n)} :: x in Listed(e, n) ==> x in docs
      modifies this`trees, if n in trees then {trees[n]} else {}
      ensures Shifted(e, now[n := true], id, docs, docs[id := data]) && Grew(old(trees), trees)
      ensures fresh(trees.Values - old(trees.Values))
    {
      hide BPT.Valid, BPT.Entries, Tree, Entries, Listed, TreeFields, Has, Width, Basic;
      ghost var d' := docs[id := data];
      assert forall x {:trigger x in Entries(n)} :: x in Entries(n) ==> x != id && x in docs;
      if n in now { Reframe(n, d', docs); } else { assert Tree(n, docs); }
      InsertInto(n, docs, id, data);
      forall m | m in now[n := true] ensures Tree(m, d') { assert m != n ==> old(Tree(m, d')); }
      forall m | m !in now[n := true] ensures Tree(m, docs) { assert old(Tree(m, docs)); }
      forall m, x ensures x in Entries(m) <==>
          if x == id && m in now[n := true] then now[n := true][m] else x in Listed(e, m) {
        assert old(x in Entries(m)) <==> if x == id && m in now then now[m] else x in Listed(e, m);
      }
    }

    /** The fields that are gone leave their indexes. */
    method OutOfFields(id: DocId, data: Doc, dels: set<string>, ghost e: map<IndexName, seq<DocId>>)
        returns (ghost now: map<IndexName, bool>)
      requires Shifted(e, map[], id, docs, docs[id := data])
      requires forall n, x {:trigger x in Listed(e, n)} :: x in Listed(e, n) ==> x in docs
      modifies this`trees, trees.Values
      ensures Shifted(e, now, id, docs, docs[id := data]) && Grew(old(trees), trees)
      ensures fresh(trees.Values - old(trees.Values))
      ensures forall n: IndexName {:trigger n in now} :: n in now <==> Basic(n) && n[0].name in dels
      ensures forall n {:trigger n in now} :: n in now ==> !now[n]
    {
      hide BPT.Valid, BPT.Entries;
      var todo := dels;
      now := map[];
      while todo != {}
        invariant todo <= dels && Shifted(e, now, id, docs, docs[id := data]) && Grew(old(trees), trees)
        invariant fresh(trees.Values - old(trees.Values))
        invariant forall n: IndexName {:trigger n in now} :: n in now <==>
          Basic(n) && n[0].name in dels && n[0].name !in todo
        invariant forall n {:trigger n in now} :: n in now ==> !now[n]
      {
        var f :| f in todo;
        Out(Single(f), id, data, e, now);
        forall n: IndexName | Basic(n) && n[0].name == f ensures n == Single(f) {}
        now := now[Single(f) := false];
        todo := todo - {f};
      }
    }

    /** The new fields enter theirs, which are registered. */
    method IntoFields(id: DocId, data: Doc, dels: set<string>, news: set<string>, ghost e: map<IndexName, seq<DocId>>,
        ghost now0: map<IndexName, bool>)
        returns (added: set<IndexName>, ghost now: map<IndexName, bool>)
      requires Shifted(e, now0, id, docs, docs[id := data])
      requires forall n, x {:trigger x in Listed(e, n)} :: x in Listed(e, n) ==> x in docs
      requires news <= data.Keys && news !! dels && ID_FIELD !in news
      requires forall n: IndexName {:trigger n in now0} :: n in now0 <==> Basic(n) && n[0].name in dels
      requires forall n: IndexName {:trigger n in now0} :: n in now0 ==> !now0[n]
      requires forall f {:trigger Single(f)} :: f in news ==> id !in Listed(e, Single(f))
      modifies this`trees, trees.Values
      ensures Shifted(e, now, id, docs, docs[id := data]) && Grew(old(trees), trees)
      ensures fresh(trees.Values - old(trees.Values))
      ensures forall n: IndexName {:trigger n in now} :: n in now <==>
        Basic(n) && (n[0].name in dels || n[0].name in news)
      ensures forall n: IndexName {:trigger n in now} :: n in now ==> |n| > 0 && (now[n] <==> n[0].name in news)
      ensures forall n: IndexName {:trigger n in added} :: n in added <==> Basic(n) && n[0].name in news
    {
      hide BPT.Valid, BPT.Entries;
      var todo := news;
      now, added := now0, {};
      while todo != {}
        invariant todo <= news && Shifted(e, now, id, docs, docs[id := data]) && Grew(old(trees), trees)
        invariant fresh(trees.Values - old(trees.Values))
        invariant forall n: IndexName {:trigger n in now} :: n in now <==>
          Basic(n) && (n[0].name in dels || (n[0].name in news && n[0].name !in todo))
        invariant forall n: IndexName {:trigger n in now} :: n in now ==> |n| > 0 && (now[n] <==> n[0].name in news)
        invariant forall n: IndexName {:trigger n in added} :: n in added <==>
          Basic(n) && n[0].name in news && n[0].name !in todo
      {
        var f :| f in todo;
        assert Single(f) !in now;
        Into(Single(f), id, data, e, now);
        forall n: IndexName | Basic(n) && n[0].name == f ensures n == Single(f) {}
        now, added := now[Single(f) := true], added + {Single(f)};
        todo := todo - {f};
      }
    }

    /** What becomes of one of the other indexes. */
    static ghost predicate Followed(n: IndexName, old_: Doc, data: Doc, now: map<IndexName, bool>)
    {
      if !SameFields(old_, data, n) && (Has(old_, n) || Has(data, n)) then n in now && (now[n] <==> Has(data, n))
      else n !in now
    }

    static ghost predicate Besides(n: IndexName, now: map<IndexName, bool>, now': map<IndexName, bool>)
    {
      forall m {:trigger m in now} {:trigger m in now'} :: m != n ==>
          (m in now <==> m in now') && (m in now ==> now[m] == now'[m])
    }

    /** The remaining indexes are touched only if one of their fields differs. */
    method Follow(id: DocId, data: Doc, names: set<IndexName>, newkeys: set<IndexName>, dels: set<string>,
        changes: set<string>, news: set<string>,
        ghost e: map<IndexName, seq<DocId>>, ghost now0: map<IndexName, bool>) returns (ghost now: map<IndexName, bool>)
      requires id in docs && Shifted(e, now0, id, docs, docs[id := data])
      requires forall n, x {:trigger x in Listed(e, n)} :: x in Listed(e, n) ==> Wants(docs, n, x)
      requires dels == (set f | f in docs[id] && f !in data) && news == set f | f in data && f !in docs[id]
      requires changes == set f | f in docs[id] && f in data && docs[id][f] != data[f]
      requires newkeys == now0.Keys
      modifies this`trees, trees.Values
      ensures Shifted(e, now, id, docs, docs[id := data]) && Grew(old(trees), trees)
      ensures fresh(trees.Values - old(trees.Values))
      ensures forall n: IndexName {:trigger n in now} {:trigger n in newkeys} :: n in newkeys ==>
        n in now && now[n] == now0[n]
      ensures forall n {:trigger n in now} :: n !in newkeys && (n !in names || Width(n) == 0) ==> n !in now
      ensures forall n {:trigger Followed(n, docs[id], data, now)} :: n !in newkeys && n in names && Width(n) > 0 ==>
        Followed(n, docs[id], data, now)
    {
      hide BPT.Valid, BPT.Entries;
      var todo := names;
      now := now0;
      while todo != {}
        invariant todo <= names && Shifted(e, now, id, docs, docs[id := data]) && Grew(old(trees), trees)
        invariant fresh(trees.Values - old(trees.Values))
        invariant docs == old(docs)
        invariant forall n: IndexName {:trigger n in now} {:trigger n in newkeys} :: n in newkeys ==>
          n in now && now[n] == now0[n]
        invariant forall n {:trigger n in now} :: n !in newkeys && (n !in names || n in todo || Width(n) == 0) ==>
          n !in now
        invariant forall n {:trigger Followed(n, docs[id], data, now)} ::
          n !in newkeys && n in names && n !in todo && Width(n) > 0 ==> Followed(n, docs[id], data, now)
      {
        var n :| n in todo;
        ghost var was := now;
        if n !in newkeys && Width(n) > 0 && (Has(data, n) || Has(docs[id], n)) {
          now := FollowOne(n, id, data, dels, changes, news, e, now);
        }
        assert Besides(n, was, now) && (n in newkeys ==> now == was);
        forall m | m in newkeys ensures m in now && now[m] == now0[m] { assert m in was && was[m] == now0[m]; }
        forall m | m != n && Followed(m, docs[id], data, was) ensures Followed(m, docs[id], data, now) {
          assert m in was <==> m in now;
        }
        todo := todo - {n};
      }
    }

    method FollowOne(n: IndexName, id: DocId, data: Doc, dels: set<string>, changes: set<string>, news: set<string>,
        ghost e: map<IndexName, seq<DocId>>, ghost now0: map<IndexName, bool>) returns (ghost now: map<IndexName, bool>)
      requires id in docs && Shifted(e, now0, id, docs, docs[id := data]) && n !in now0
      requires Has(data, n) || Has(docs[id], n)
      requires forall n, x {:trigger x in Listed(e, n)} :: x in Listed(e, n) ==> Wants(docs, n, x)
      requires dels == (set f | f in docs[id] && f !in data) && news == set f | f in data && f !in docs[id]
      requires changes == set f | f in docs[id] && f in data && docs[id][f] != data[f]
      modifies this`trees, trees.Values
      ensures Shifted(e, now, id, docs, docs[id := data]) && Grew(old(trees), trees)
      ensures fresh(trees.Values - old(trees.Values))
      ensures Followed(n, docs[id], data, now) && Besides(n, now0, now)
    {
      hide BPT.Valid, BPT.Entries;
      var isAdd, isDel := false, false;
      if Meets(n, news) { isAdd := true; }
      if Meets(n, changes) { isDel, isAdd := true, true; }
      if Meets(n, dels) { isDel, isAdd := true, false; }
      Differs(n, docs[id], data, dels, changes, news);
      now := now0;
      if isDel {
        Out(n, id, data, e, now);
        now := now[n := false];
      }
      if isAdd {
        Into(n, id, data, e, now);
        now := now[n := true];
      }
    }

    /** Which of the three lists an index meets says whether a document had and has its fields. */
    static lemma {:induction false} Differs(n: IndexName, a: Doc, b: Doc, dels: set<string>, changes: set<string>,
        news: set<string>)
      requires dels == (set f | f in a && f !in b) && news == set f | f in b && f !in a
      requires changes == set f | f in a && f in b && a[f] != b[f]
      ensures Has(a, n) ==> !Meets(n, news)
      ensures Has(b, n) ==> !Meets(n, dels)
      ensures !Has(a, n) && Has(b, n) ==> Meets(n, news)
      ensures Has(a, n) && !Has(b, n) ==> Meets(n, dels)
      ensures Meets(n, dels) || Meets(n, changes) || Meets(n, news) <==> !SameFields(a, b, n)
    {
      if !SameFields(a, b, n) {
        var i :| 0 <= i < |n| && n[i].name != ID_FIELD
            && !((n[i].name in a <==> n[i].name in b) && (n[i].name in a ==> a[n[i].name] == b[n[i].name]));
        assert n[i].name in dels || n[i].name in changes || n[i].name in news;
      }
      if !Has(b, n) && Has(a, n) {
        var i :| 0 <= i < |n| && n[i].name != ID_FIELD && n[i].name !in b;
        assert n[i].name in dels;
      }
      if !Has(a, n) && Has(b, n) {
        var i :| 0 <= i < |n| && n[i].name != ID_FIELD && n[i].name !in a;
        assert n[i].name in news;
      }
    }

    /** Which indexes list the document afterwards, given what was done about each. */
    ghost predicate Settled(n: IndexName, id: DocId, a: Doc, b: Doc, e: map<IndexName, seq<DocId>>,
        now: map<IndexName, bool>)
    {
      if n in now then (now[n] <==> Has(b, n)) else id in Listed(e, n) ==> SameFields(a, b, n)
    }

    lemma {:induction false} AllSettled(id: DocId, a: Doc, b: Doc, e: map<IndexName, seq<DocId>>,
        names: set<IndexName>, now0: map<IndexName, bool>, now: map<IndexName, bool>)
      requires ID_FIELD !in a && ID_FIELD !in b
      requires forall n: IndexName {:trigger n in now0} :: n in now0 <==>
        Basic(n) && n[0].name in a.Keys + b.Keys && !(n[0].name in a && n[0].name in b)
      requires forall n: IndexName {:trigger n in now0} :: n in now0 ==> |n| > 0 && (now0[n] <==> n[0].name in b)
      requires forall n: IndexName {:trigger n in now} :: n in now0 ==> n in now && now[n] == now0[n]
      requires forall n: IndexName {:trigger n in now} :: n !in now0 && (n !in names || Width(n) == 0) ==> n !in now
      requires forall n: IndexName {:trigger Followed(n, a, b, now)} :: n !in now0 && n in names && Width(n) > 0 ==>
        Followed(n, a, b, now)
      requires forall n: IndexName {:trigger Listed(e, n)} :: Listed(e, n) != [] && n != [ID] ==>
        n in names && Width(n) > 0
      requires forall n: IndexName {:trigger id in Listed(e, n)} :: id in Listed(e, n) ==> Has(a, n)
      ensures forall n: IndexName {:trigger Settled(n, id, a, b, e, now)} :: Settled(n, id, a, b, e, now)
    {
      forall n: IndexName ensures Settled(n, id, a, b, e, now) {
        if n in now0 {
          assert now[n] == now0[n] && n[0].name != ID_FIELD;
        } else if n in now {
          assert Followed(n, a, b, now);
        } else if id in Listed(e, n) {
          if n != [ID] { assert Followed(n, a, b, now); }
        }
      }
    }

    lemma {:induction false} TreesFollow(id: DocId, data: Doc, d: Docs, e: map<IndexName, seq<DocId>>,
        now: map<IndexName, bool>)
      requires id in d && Shifted(e, now, id, d, d[id := data])
      requires forall n, x {:trigger x in Listed(e, n)} :: x in Listed(e, n) ==> x in d
      requires forall n: IndexName {:trigger Settled(n, id, d[id], data, e, now)} :: Settled(n, id, d[id], data, e, now)
      ensures forall n {:trigger Tree(n, d[id := data])} :: Tree(n, d[id := data])
      ensures Separate()
      ensures forall n, x {:trigger x in Entries(n)} :: x in Entries(n) <==>
        if x == id && n in now then now[n] else x in Listed(e, n)
    {
      hide BPT.Valid, BPT.Entries;
      var d' := d[id := data];
      forall n ensures Tree(n, d') {
        if n !in now {
          assert Tree(n, d) && Settled(n, id, d[id], data, e, now);
          forall x | x in Entries(n) ensures x in d && x in d' && SameFields(d[x], d'[x], n) {
            assert x in Listed(e, n);
          }
          Reframe(n, d, d');
        }
      }
    }

    lemma {:induction false} Updated(id: DocId, data: Doc, d: Docs, e: map<IndexName, seq<DocId>>,
        names0: set<IndexName>, now: map<IndexName, bool>)
      requires id in d && docs == d[id := data] && names0 <= indexes
      requires forall n, x {:trigger x in Entries(n)} :: x in Entries(n) <==>
        if x == id && n in now then now[n] else x in Listed(e, n)
      requires forall n, x {:trigger x in Listed(e, n)} :: x in Listed(e, n) ==> Wants(d, n, x)
      requires forall n, x {:trigger x in Listed(e, n)} :: Basic(n) && Wants(d, n, x) ==> x in Listed(e, n)
      requires forall n: IndexName {:trigger Listed(e, n)} :: Listed(e, n) != [] && n != [ID] ==>
        n in indexes && Width(n) > 0
      requires forall n: IndexName {:trigger Settled(n, id, d[id], data, e, now)} :: Settled(n, id, d[id], data, e, now)
      requires forall n: IndexName {:trigger n in now} :: n in now && now[n] ==> n in indexes && Width(n) > 0
      requires forall n: IndexName {:trigger Has(data, n)} ::
        (Basic(n) || n in names0) && n !in now && Has(data, n) ==> Has(d[id], n)
      ensures forall n {:trigger Sound(n)} :: Sound(n)
      ensures forall n {:trigger Complete(n)} :: Basic(n) ==> Complete(n)
      ensures forall n {:trigger Entries(n)} :: Entries(n) != [] && n != [ID] ==> n in indexes && Width(n) > 0
      ensures forall n {:trigger Complete(n)} :: n in names0 && (forall x :: Wants(d, n, x) ==> x in Listed(e, n)) ==>
        Complete(n)
    {
      forall n ensures Sound(n) {
        forall x | x in Entries(n) ensures Wants(docs, n, x) {
          assert Settled(n, id, d[id], data, e, now);
          assert x in Listed(e, n) ==> Wants(d, n, x);
        }
      }
      forall n | (Basic(n) || n in names0) && (forall x :: Wants(d, n, x) ==> x in Listed(e, n)) ensures Complete(n) {
        forall x | Wants(docs, n, x) ensures x in Entries(n) {
          assert Settled(n, id, d[id], data, e, now);
          assert x == id ==> Has(data, n);
          assert n !in now || x != id ==> Wants(d, n, x);
        }
      }
      forall n | Basic(n) ensures Complete(n) {
        forall x | Wants(d, n, x) ensures x in Listed(e, n) {}
      }
      forall n: IndexName | Entries(n) != [] && n != [ID] ensures n in indexes && Width(n) > 0 {
        var x := Entries(n)[0];
        assert x in Entries(n);
        assert x in Listed(e, n) ==> Listed(e, n) != [];
        assert n in now && now[n] ==> n in indexes;
      }
    }

    static lemma {:induction false} WidthZero(n: IndexName, doc: Doc)
      ensures Width(n) == 0 ==> Has(doc, n)
    {
      if n != [] && Width(n) == 0 {
        WidthZero(n[1..], doc);
        forall i | 0 <= i < |n| ensures n[i].name == ID_FIELD || n[i].name in doc {
          assert i > 0 ==> n[i] == n[1..][i - 1];
        }
      }
    }

    /** What else the update leaves to say about the indexes it did not touch. */
    static lemma {:induction false} Untouched(a: Doc, b: Doc, names: set<IndexName>, now0: map<IndexName, bool>,
        now: map<IndexName, bool>)
      requires ID_FIELD !in a && ID_FIELD !in b
      requires forall n: IndexName {:trigger n in now0} :: n in now0 <==>
        Basic(n) && n[0].name in a.Keys + b.Keys && !(n[0].name in a && n[0].name in b)
      requires forall n: IndexName {:trigger n in now0} :: n in now0 ==> |n| > 0 && (now0[n] <==> n[0].name in b)
      requires forall n: IndexName {:trigger n in now} :: n in now0 ==> n in now && now[n] == now0[n]
      requires forall n: IndexName {:trigger n in now} :: n !in now0 && (n !in names || Width(n) == 0) ==> n !in now
      requires forall n: IndexName {:trigger Followed(n, a, b, now)} :: n !in now0 && n in names && Width(n) > 0 ==>
        Followed(n, a, b, now)
      requires forall n: IndexName {:trigger n in names} :: Basic(n) && n[0].name in b && n[0].name !in a ==> n in names
      ensures forall n: IndexName {:trigger n in now} :: n in now && now[n] ==> n in names && Width(n) > 0
      ensures forall n: IndexName {:trigger Has(b, n)} :: (Basic(n) || n in names) && n !in now && Has(b, n) ==>
        Has(a, n)
    {
      forall n: IndexName | n in now && now[n] ensures n in names && Width(n) > 0 {
        if n in now0 { assert n[1..] == [] && n[0].name != ID_FIELD; }
      }
      forall n: IndexName | (Basic(n) || n in names) && n !in now && Has(b, n) ensures Has(a, n) {
        WidthZero(n, a);
        assert n !in now0;
        if n in names && Width(n) > 0 {
          assert Followed(n, a, b, now);
        } else if Basic(n) {
          assert n[0].name == ID_FIELD || n[0].name in b;
        }
      }
    }

    static lemma {:induction false} NewKeys(dels: set<string>, news: set<string>, newkeys: set<IndexName>,
        now: map<IndexName, bool>)
      requires newkeys == set f | f in dels + news :: Single(f)
      requires forall n: IndexName {:trigger n in now} :: n in now <==>
        Basic(n) && (n[0].name in dels || n[0].name in news)
      ensures newkeys == now.Keys
    {
      forall n: IndexName ensures n in newkeys <==> n in now {
        if n in now { assert n == Single(n[0].name) && n[0].name in dels + news; }
      }
    }

    /** The index work of an update, while the old document is still stored. */
    method Rework(id: DocId, data: Doc) returns (ghost e: map<IndexName, seq<DocId>>, ghost now: map<IndexName, bool>)
      requires Valid() && id in docs && ID_FIELD !in data
      modifies this`indexes, this`trees, trees.Values
      ensures Separate() && FieldsAdded(old(indexes), indexes) && Grew(old(trees), trees)
      ensures fresh(trees.Values - old(trees.Values))
      ensures forall n {:trigger Tree(n, docs[id := data])} :: Tree(n, docs[id := data])
      ensures forall n, x {:trigger x in Entries(n)} :: x in Entries(n) <==>
        if x == id && n in now then now[n] else x in Listed(e, n)
      ensures forall n {:trigger Listed(e, n)} :: Listed(e, n) == old(Entries(n))
      ensures forall n, x {:trigger x in Listed(e, n)} :: x in Listed(e, n) ==> Wants(docs, n, x)
      ensures forall n, x {:trigger x in Listed(e, n)} :: Basic(n) && Wants(docs, n, x) ==> x in Listed(e, n)
      ensures forall n: IndexName {:trigger Listed(e, n)} :: Listed(e, n) != [] && n != [ID] ==>
        n in indexes && Width(n) > 0
      ensures forall n: IndexName {:trigger Settled(n, id, docs[id], data, e, now)} ::
        Settled(n, id, docs[id], data, e, now)
      ensures forall n: IndexName {:trigger n in now} :: n in now && now[n] ==> n in indexes && Width(n) > 0
      ensures forall n: IndexName {:trigger Has(data, n)} ::
        (Basic(n) || n in indexes) && n !in now && Has(data, n) ==> Has(docs[id], n)
    {
      hide BPT.Valid, BPT.Entries;
      e := Snapshot();
      StartShift(id, data, e);
      hide Tree, Entries, Sound, Complete, Has, Shifted, Wants, Valid;
      var dels, changes, news, newkeys, now1 := ReworkFields(id, data, e);
      now := Follow(id, data, indexes, newkeys, dels, changes, news, e, now1);
      AllSettled(id, docs[id], data, e, indexes, now1, now);
      Untouched(docs[id], data, indexes, now1, now);
      TreesFollow(id, data, docs, e, now);
    }

    lemma {:induction false} StartShift(id: DocId, data: Doc, e: map<IndexName, seq<DocId>>)
      requires Valid() && forall n {:trigger Listed(e, n)} {:trigger Entries(n)} :: Listed(e, n) == Entries(n)
      ensures Shifted(e, map[], id, docs, docs[id := data]) && (id in docs ==> ID_FIELD !in docs[id])
      ensures forall n: IndexName {:trigger id in Listed(e, n)} :: id in Listed(e, n) ==> id in docs && Has(docs[id], n)
    {
      hide BPT.Valid, BPT.Entries;
      forall n ensures Tree(n, docs) {}
      forall n | id in Listed(e, n) ensures Wants(docs, n, id) { assert Sound(n) && id in Entries(n); }
    }

    /** The single-field indexes of the fields that went and came. */
    method ReworkFields(id: DocId, data: Doc, ghost e: map<IndexName, seq<DocId>>)
        returns (dels: set<string>, changes: set<string>, news: set<string>, newkeys: set<IndexName>,
            ghost now: map<IndexName, bool>)
      requires id in docs && ID_FIELD !in data && ID_FIELD !in docs[id] && Shifted(e, map[], id, docs, docs[id := data])
      requires forall n, x {:trigger x in Listed(e, n)} :: x in Listed(e, n) ==> x in docs
      requires forall n: IndexName {:trigger id in Listed(e, n)} :: id in Listed(e, n) ==> Has(docs[id], n)
      modifies this`indexes, this`trees, trees.Values
      ensures Shifted(e, now, id, docs, docs[id := data]) && Grew(old(trees), trees)
      ensures fresh(trees.Values - old(trees.Values))
      ensures dels == (set f | f in docs[id] && f !in data) && news == set f | f in data && f !in docs[id]
      ensures changes == set f | f in docs[id] && f in data && docs[id][f] != data[f]
      ensures newkeys == now.Keys && FieldsAdded(old(indexes), indexes)
      ensures forall n: IndexName {:trigger n in now} :: n in now <==>
        Basic(n) && n[0].name in docs[id].Keys + data.Keys && !(n[0].name in docs[id] && n[0].name in data)
      ensures forall n: IndexName {:trigger n in now} :: n in now ==> |n| > 0 && (now[n] <==> n[0].name in data)
      ensures forall n: IndexName {:trigger n in indexes} ::
        Basic(n) && n[0].name in data && n[0].name !in docs[id] ==> n in indexes
    {
      hide BPT.Valid, BPT.Entries, Tree, Entries, Shifted, Width, TreeFields, Listed;
      dels, changes, news := Mod(docs[id], data);
      var now0 := OutOfFields(id, data, dels, e);
      forall f | f in news ensures id !in Listed(e, Single(f)) { assert Single(f)[0].name == f; }
      hide Has;
      var added;
      added, now := IntoFields(id, data, dels, news, e, now0);
      indexes := indexes + added;
      newkeys := set f | f in dels + news :: Single(f);
      NewKeys(dels, news, newkeys, now);
    }

    /** Replaces a document, touching only the indexes whose fields differ. */
    method Update(id: DocId, data: Doc)
      requires Valid() && id in docs && ID_FIELD !in data
      modifies this, trees.Values
      ensures Valid() && docs == old(docs)[id := data] && FieldsAdded(old(indexes), indexes)
      ensures Grew(old(trees), trees) && fresh(trees.Values - old(trees.Values))
      ensures forall n {:trigger Complete(n)} :: n in old(indexes) && old(Complete(n)) ==> Complete(n)
    {
      hide BPT.Valid, BPT.Entries, Tree, Entries, Settled, Has;
      ghost var d := docs;
      var e, now := Rework(id, data);
      docs := docs[id := data];
      Updated(id, data, d, e, old(indexes), now);
    }

    /** Stores a document: a new one, a replacement from scratch, or an update. A document
        stored from scratch enters a registered index whose fields it has exactly if the
        index is over one field, or over more than one field besides the id. */
    method Put(id: DocId, data: Doc, create: bool)
      requires Valid() && ID_FIELD !in data
      modifies this, trees.Values
      ensures Valid() && docs == old(docs)[id := data] && FieldsAdded(old(indexes), indexes)
      ensures Grew(old(trees), trees) && fresh(trees.Values - old(trees.Values))
      ensures forall n {:trigger Complete(n)} :: Width(n) > 1 && n in old(indexes) && old(Complete(n)) ==> Complete(n)
      ensures id in old(docs) && !create ==>
        forall n {:trigger Complete(n)} :: n in old(indexes) && old(Complete(n)) ==> Complete(n)
      ensures id !in old(docs) || create ==>
        forall n {:trigger id in Entries(n)} :: n in old(indexes) && Has(data, n) ==>
            (id in Entries(n) <==> Basic(n) || Width(n) > 1)
    {
      hide BPT.Valid, BPT.Entries, Valid, Tree, Entries, Has, Complete;
      if id in docs {
        if create {
          Del(id);
          assert docs[id := data] == old(docs)[id := data];
          Create(id, data);
        } else {
          Update(id, data);
        }
      } else {
        Create(id, data);
      }
    }

    // ----- indexes come and go

    static const EVERYTHING := RangeOpt(None, None, None, None, None, false)

    static lemma {:induction false} SelectsAll(fields: seq<SortField>, d: Docs, ids: seq<DocId>)
      ensures Select(fields, d, EVERYTHING, ids) == ids
    {
      if ids != [] { SelectsAll(fields, d, ids[1..]); }
    }

    /** The ids the listing of the whole directory gives: the first thousand. */
    ghost function FirstIds(): seq<DocId>
      reads this`trees, trees.Values
    {
      Limited(1000, Entries([ID]))
    }

    static lemma {:induction false} DistinctIds(o: BPT, d: Docs)
      requires o.Valid(d)
      ensures forall i, j {:trigger o.Entries()[i], o.Entries()[j]} :: 0 <= i < j < |o.Entries()| ==>
        o.Entries()[i] != o.Entries()[j]
    {
      SortedDistinct(o.fields, d, o.Entries());
      forall i, j | 0 <= i < j < |o.Entries()| ensures o.Entries()[i] != o.Entries()[j] {
        assert Differ(o.Entries(), i, o.Entries(), j);
      }
    }

    /** The listing an index is built from and taken down by. */
    method Listing() returns (ids: seq<DocId>)
      requires Separate() && Tree([ID], docs)
      modifies this`trees
      ensures Separate() && Grew(old(trees), trees) && fresh(trees.Values - old(trees.Values))
      ensures trees.Keys == old(trees).Keys + {[ID]}
      ensures Tree([ID], docs) && Entries([ID]) == old(Entries([ID])) && ids == FirstIds()
      ensures forall i, j {:trigger ids[i], ids[j]} :: 0 <= i < j < |ids| ==> ids[i] != ids[j]
    {
      hide BPT.Valid, BPT.Entries;
      var o := Open([ID], docs);
      DistinctIds(o, docs);
      ids := o.Range(docs, EVERYTHING);
      SelectsAll(o.fields, docs, o.Entries());
    }

    /** The tree of an index, for a query to read. */
    method Handle(n: IndexName) returns (o: BPT)
      requires Valid()
      modifies this`trees
      ensures Valid() && forall m {:trigger Entries(m)} :: Entries(m) == old(Entries(m))
      ensures Grew(old(trees), trees) && fresh(trees.Values - old(trees.Values))
      ensures o.fields == TreeFields(n) && o.Valid(docs) && o.Entries() == Entries(n)
    {
      hide BPT.Valid, BPT.Entries, Tree, Entries;
      ghost var e := Snapshot();
      o := HandleOne(n);
      assert forall m {:trigger Entries(m)} :: Entries(m) == Listed(e, m);
    }

    method HandleOne(n: IndexName) returns (o: BPT)
      requires Separate() && forall m {:trigger Tree(m, docs)} :: Tree(m, docs)
      modifies this`trees
      ensures Separate() && forall m {:trigger Tree(m, docs)} :: Tree(m, docs)
      ensures forall m {:trigger Entries(m)} :: Entries(m) == old(Entries(m))
      ensures Grew(old(trees), trees) && fresh(trees.Values - old(trees.Values))
      ensures o.fields == TreeFields(n) && o.Valid(docs) && o.Entries() == Entries(n)
    {
      hide BPT.Valid, BPT.Entries;
      assert Tree(n, docs);
      o := Open(n, docs);
      forall m ensures Tree(m, docs) && Entries(m) == old(Entries(m)) { assert old(Tree(m, docs)); }
    }

    /** Asks one index for a range. */
    method Ask(n: IndexName, opt: RangeOpt) returns (ids: seq<DocId>)
      requires Valid() && FitsAll(TreeFields(n), opt)
      modifies this`trees
      ensures Valid() && forall m {:trigger Entries(m)} :: Entries(m) == old(Entries(m))
      ensures Grew(old(trees), trees) && fresh(trees.Values - old(trees.Values))
      ensures ids == Answer(TreeFields(n), docs, opt, Entries(n))
    {
      hide BPT.Valid, BPT.Entries, Answer, Tree, Entries, Valid;
      var o := Handle(n);
      ids := o.Range(docs, opt);
    }

    /** Everything but index n is as the snapshot says; n lists the wanted documents of ids. */
    ghost predicate Building(e: map<IndexName, seq<DocId>>, n: IndexName, want: bool, ids: seq<DocId>)
      reads this`docs, this`trees, trees.Values
    {
      && Separate() && (forall m {:trigger Tree(m, docs)} :: Tree(m, docs))
      && (forall m {:trigger Entries(m)} :: m != n ==> Entries(m) == Listed(e, m))
      && forall x {:trigger x in Entries(n)} ::
           x in Entries(n) <==>
               if want then x in ids && Wants(docs, n, x) else x in Listed(e, n) && !(x in ids && Wants(docs, n, x))
    }

    method FillOne(n: IndexName, x: DocId, ghost before: seq<DocId>, ghost e: map<IndexName, seq<DocId>>)
      requires Building(e, n, true, before) && x in docs && x !in before
      modifies this`trees, trees.Values
      ensures Building(e, n, true, before + [x]) && Grew(old(trees), trees) && fresh(trees.Values - old(trees.Values))
    {
      hide BPT.Valid, BPT.Entries, Has;
      if Has(docs[x], n) {
        assert Tree(n, docs) && x !in Entries(n) && docs[x := docs[x]] == docs;
        InsertInto(n, docs, x, docs[x]);
        forall m ensures Tree(m, docs) { assert old(Tree(m, docs)); }
        forall m | m != n ensures Entries(m) == Listed(e, m) { assert old(Entries(m)) == Listed(e, m); }
      }
    }

    method EmptyOne(n: IndexName, x: DocId, ghost before: seq<DocId>, ghost e: map<IndexName, seq<DocId>>)
      requires Building(e, n, false, before) && x in docs
      requires forall y {:trigger y in Listed(e, n)} :: y in Listed(e, n) ==> y in docs
      modifies this`trees, trees.Values
      ensures Building(e, n, false, before + [x]) && Grew(old(trees), trees) && fresh(trees.Values - old(trees.Values))
    {
      hide BPT.Valid, BPT.Entries, Has;
      if Has(docs[x], n) {
        assert Tree(n, docs) && forall y {:trigger y in Entries(n)} :: y in Entries(n) ==> y in Listed(e, n);
        DeleteFrom(n, docs, x);
        forall y | y in Entries(n) ensures y in docs && y in docs - {x} && SameFields((docs - {x})[y], docs[y], n) {
          assert y in Listed(e, n);
        }
        Reframe(n, docs - {x}, docs);
        forall m ensures Tree(m, docs) { assert m != n ==> old(Tree(m, docs)); }
        forall m | m != n ensures Entries(m) == Listed(e, m) { assert old(Entries(m)) == Listed(e, m); }
      }
    }

    /** Inserts, or deletes, every listed document that has the fields of an index. */
    method Sweep(n: IndexName, want: bool, ids: seq<DocId>, ghost e: map<IndexName, seq<DocId>>)
      requires Building(e, n, want, [])
      requires forall i, j {:trigger ids[i], ids[j]} :: 0 <= i < j < |ids| ==> ids[i] != ids[j]
      requires forall x {:trigger x in ids} :: x in ids ==> x in docs
      requires forall y {:trigger y in Listed(e, n)} :: y in Listed(e, n) ==> y in docs
      modifies this`trees, trees.Values
      ensures Building(e, n, want, ids) && Grew(old(trees), trees) && fresh(trees.Values - old(trees.Values))
    {
      hide BPT.Valid, BPT.Entries, Building;
      for j := 0 to |ids|
        invariant Building(e, n, want, ids[..j]) && Grew(old(trees), trees) && fresh(trees.Values - old(trees.Values))
      {
        var x := ids[j];
        assert ids[..j + 1] == ids[..j] + [x] && x in ids;
        if want {
          forall i | 0 <= i < j ensures ids[..j][i] != x { assert ids[i] != ids[j]; }
          FillOne(n, x, ids[..j], e);
        } else {
          EmptyOne(n, x, ids[..j], e);
        }
      }
      assert ids[..|ids|] == ids;
    }

    /** What is known before an index is built or taken down. */
    lemma {:induction false} StartBuild(n: IndexName, want: bool, e: map<IndexName, seq<DocId>>)
      requires Valid() && forall m {:trigger Listed(e, m)} {:trigger Entries(m)} :: Listed(e, m) == Entries(m)
      requires want ==> n !in indexes && n != [ID]
      ensures Building(e, n, want, [])
      ensures forall x {:trigger x in Entries([ID])} :: x in Entries([ID]) ==> x in docs
      ensures forall x {:trigger x in Listed(e, n)} :: x in Listed(e, n) ==> x in docs
    {
      hide BPT.Valid, BPT.Entries;
      forall m ensures Tree(m, docs) {}
      assert want ==> Entries(n) == [];
      forall x | x in Entries([ID]) ensures x in docs { assert Sound([ID]); }
      forall x | x in Listed(e, n) ensures x in docs { assert Sound(n) && x in Entries(n); }
    }

    /** Lists the directory and sweeps index n with it. */
    method Rebuild(n: IndexName, want: bool) returns (ghost e: map<IndexName, seq<DocId>>)
      requires Valid() && n != [ID] && (want ==> n !in indexes)
      modifies this`trees, trees.Values
      ensures Building(e, n, want, FirstIds()) && FirstIds() == old(FirstIds()) && Entries([ID]) == old(Entries([ID]))
      ensures Grew(old(trees), trees) && fresh(trees.Values - old(trees.Values))
      ensures forall m {:trigger Listed(e, m)} :: Listed(e, m) == old(Entries(m))
      ensures forall m, x {:trigger x in Listed(e, m)} :: x in Listed(e, m) ==> Wants(docs, m, x)
      ensures forall m, x {:trigger x in Listed(e, m)} :: Basic(m) && Wants(docs, m, x) ==> x in Listed(e, m)
      ensures forall m {:trigger Listed(e, m)} :: Listed(e, m) != [] && m != [ID] ==> m in indexes && Width(m) > 0
      ensures forall m {:trigger old(Complete(m))} :: old(Complete(m)) ==> Covered(docs, e, m)
    {
      hide BPT.Valid, BPT.Entries, Has, Tree, Sound, Width, Basic, TreeFields, Listed, Entries;
      e := Snapshot();
      StartBuild(n, want, e);
      assert Separate() && Tree([ID], docs);
      var ids := ListingFor(n, want, e);
      forall x | x in ids ensures x in docs { assert x in Listed(e, [ID]) && Wants(docs, [ID], x); }
      Sweep(n, want, ids, e);
      assert Entries([ID]) == Listed(e, [ID]);
    }

    method ListingFor(n: IndexName, want: bool, ghost e: map<IndexName, seq<DocId>>) returns (ids: seq<DocId>)
      requires Building(e, n, want, []) && n != [ID]
      modifies this`trees
      ensures Building(e, n, want, []) && Grew(old(trees), trees) && fresh(trees.Values - old(trees.Values))
      ensures ids == Limited(1000, Listed(e, [ID]))
      ensures forall i, j {:trigger ids[i], ids[j]} :: 0 <= i < j < |ids| ==> ids[i] != ids[j]
    {
      hide BPT.Valid, BPT.Entries, Has;
      assert Tree([ID], docs);
      ids := Listing();
      forall m ensures Tree(m, docs) && Entries(m) == old(Entries(m)) { assert old(Tree(m, docs)); }
    }

    /** Registers an index over at least two fields and builds it from the documents at hand:
        the first thousand of them, which is all of them in a directory of that size. */
    method AddIndex(n: IndexName)
      requires Valid()
      modifies this`indexes, this`trees, trees.Values
      ensures Valid() && Grew(old(trees), trees) && fresh(trees.Values - old(trees.Values))
      ensures |n| < 2 || n in old(indexes) ==>
        indexes == old(indexes) && forall m {:trigger Entries(m)} :: Entries(m) == old(Entries(m))
      ensures |n| >= 2 && n !in old(indexes) ==>
        indexes == old(indexes) + {n} && forall m {:trigger Entries(m)} :: m != n ==> Entries(m) == old(Entries(m))
      ensures |n| >= 2 && n !in old(indexes) ==>
        forall x {:trigger x in Entries(n)} :: x in Entries(n) <==> Width(n) > 0 && x in FirstIds() && Wants(docs, n, x)
      ensures |n| >= 2 && n !in old(indexes) && Width(n) > 0 && |Entries([ID])| <= 1000 ==> Complete(n)
      ensures forall m {:trigger Complete(m)} :: m in old(indexes) && old(Complete(m)) ==> Complete(m)
    {
      hide BPT.Valid, BPT.Entries, Has, Tree, Entries, Sound, Complete;
      if |n| < 2 || n in indexes { return; }
      assert Entries(n) == [];
      if Width(n) > 0 {
        var e := Rebuild(n, true);
        indexes := indexes + {n};
        Swept(n, true, e, old(indexes));
      } else {
        indexes := indexes + {n};
      }
    }

    /** A swept index, and every other one as before. */
    lemma {:induction false} Swept(n: IndexName, want: bool, e: map<IndexName, seq<DocId>>, names0: set<IndexName>)
      requires Building(e, n, want, FirstIds()) && |n| >= 2
      requires forall m, x {:trigger x in Listed(e, m)} :: x in Listed(e, m) ==> Wants(docs, m, x)
      requires forall m, x {:trigger x in Listed(e, m)} :: Basic(m) && Wants(docs, m, x) ==> x in Listed(e, m)
      requires forall m {:trigger Listed(e, m)} :: Listed(e, m) != [] && m != [ID] ==> m in names0 && Width(m) > 0
      ensures forall m {:trigger Sound(m)} :: Sound(m)
      ensures forall m {:trigger Complete(m)} :: Basic(m) ==> Complete(m)
      ensures forall m {:trigger Entries(m)} :: m != n && Entries(m) != [] && m != [ID] ==> m in names0 && Width(m) > 0
      ensures want && |Entries([ID])| <= 1000 ==> Complete(n)
      ensures !want && |Entries([ID])| <= 1000 ==> Entries(n) == []
      ensures forall m {:trigger Complete(m)} :: m != n && Covered(docs, e, m) ==> Complete(m)
    {
      hide BPT.Valid, BPT.Entries, Has;
      assert forall x :: Wants(docs, [ID], x) ==> x in Listed(e, [ID]);
      forall m ensures Sound(m) {
        forall x | x in Entries(m) ensures Wants(docs, m, x) { assert x in Listed(e, m) || m == n; }
      }
      forall m | m != n && Covered(docs, e, m) ensures Complete(m) {}
      forall m | Basic(m) ensures Complete(m) { assert Covered(docs, e, m); }
      if |Entries([ID])| <= 1000 { SmallDirectory(n, want, e); }
    }

    lemma {:induction false} SmallDirectory(n: IndexName, want: bool, e: map<IndexName, seq<DocId>>)
      requires Building(e, n, want, FirstIds()) && n != [ID] && |Entries([ID])| <= 1000
      requires forall m, x {:trigger x in Listed(e, m)} :: x in Listed(e, m) ==> Wants(docs, m, x)
      requires forall m, x {:trigger x in Listed(e, m)} :: Basic(m) && Wants(docs, m, x) ==> x in Listed(e, m)
      ensures if want then Complete(n) else Entries(n) == []
    {
      hide BPT.Valid, BPT.Entries;
      assert FirstIds() == Entries([ID]) == Listed(e, [ID]);
      forall x | Wants(docs, n, x) ensures x in FirstIds() { assert Wants(docs, [ID], x); }
      if !want {
        forall x ensures x !in Entries(n) { assert x in Listed(e, n) ==> Wants(docs, n, x); }
        SomeMember(Entries(n));
      }
    }

    /** Takes an index down again. In a directory of more than a thousand documents the rest
        stays listed in a tree nobody asks any more. */
    method RemoveIndex(n: IndexName)
      requires Valid()
      modifies this`indexes, this`trees, trees.Values
      ensures Grew(old(trees), trees) && fresh(trees.Values - old(trees.Values))
      ensures |n| < 2 || n !in old(indexes) ==>
        Valid() && indexes == old(indexes) && forall m {:trigger Entries(m)} :: Entries(m) == old(Entries(m))
      ensures |n| >= 2 && n in old(indexes) ==>
        indexes == old(indexes) - {n} && forall m {:trigger Entries(m)} :: m != n ==> Entries(m) == old(Entries(m))
      ensures |n| >= 2 && n in old(indexes) ==>
        forall x {:trigger x in Entries(n)} :: x in Entries(n) <==>
            x in old(Entries(n)) && (Width(n) == 0 || x !in FirstIds())
      ensures |Entries([ID])| <= 1000 ==> Valid()
      ensures |Entries([ID])| <= 1000 && |n| >= 2 && n in old(indexes) ==> Entries(n) == []
      ensures forall m {:trigger Complete(m)} :: m != n && old(Complete(m)) ==> Complete(m)
    {
      hide BPT.Valid, BPT.Entries, Has, Tree, Entries, Sound, Complete;
      if |n| < 2 || n !in indexes { return; }
      if Width(n) > 0 {
        var e := Rebuild(n, false);
        indexes := indexes - {n};
        Swept(n, false, e, old(indexes));
      } else {
        assert Entries(n) == [];
        indexes := indexes - {n};
      }
    }
  }

  // ----- what the contents are determined by

  lemma {:induction false} SortedUnique(fields: seq<SortField>, docs: Docs, a: seq<DocId>, b: seq<DocId>)
    requires EndsWithId(fields) && Sorted(fields, docs, a) && Sorted(fields, docs, b)
    requires forall x {:trigger x in a} {:trigger x in b} :: x in a <==> x in b
    ensures a == b
  {
    SortedAscends(fields, docs, a);
    SortedAscends(fields, docs, b);
    SameBeginning(fields, docs, a, b, |a|);
    SameLength(fields, docs, a, b);
  }

  lemma {:induction false} EntriesSorted(k: Indexer, n: IndexName)
    requires k.Tree(n, k.docs)
    ensures EndsWithId(TreeFields(n)) && Sorted(TreeFields(n), k.docs, k.Entries(n))
  {
  }

  /** A complete index lists exactly the documents with its fields, each once, in order. */
  lemma {:induction false} ExactListing(k: Indexer, n: IndexName)
    requires k.Valid() && k.Complete(n)
    ensures forall x {:trigger x in k.Entries(n)} :: x in k.Entries(n) <==> Wants(k.docs, n, x)
    ensures EndsWithId(TreeFields(n)) && Sorted(TreeFields(n), k.docs, k.Entries(n)) && NoDup(k.Entries(n))
  {
    hide BPT.Valid, BPT.Entries;
    assert k.Tree(n, k.docs) && k.Sound(n);
    EntriesSorted(k, n);
    SortedDistinct(TreeFields(n), k.docs, k.Entries(n));
  }

  /** Whatever calls two directories went through, once they hold the same documents their
      complete indexes list the same ids in the same order. */
  lemma {:induction false} SameContents(a: Indexer, b: Indexer, n: IndexName)
    requires a.Valid() && b.Valid() && a.docs == b.docs && a.Complete(n) && b.Complete(n)
    ensures a.Entries(n) == b.Entries(n)
  {
    hide BPT.Valid, BPT.Entries;
    assert a.Tree(n, a.docs) && b.Tree(n, b.docs) && a.Sound(n) && b.Sound(n);
    EntriesSorted(a, n);
    EntriesSorted(b, n);
    forall x ensures x in a.Entries(n) <==> x in b.Entries(n) { assert Wants(a.docs, n, x) <==> Wants(b.docs, n, x); }
    SortedUnique(TreeFields(n), a.docs, a.Entries(n), b.Entries(n));
  }

  lemma {:induction false} SizeOfListing(s: set<DocId>, c: seq<DocId>)
    requires NoDup(c) && forall x {:trigger x in c} {:trigger x in s} :: x in c <==> x in s
    ensures |c| == |s|
  {
    if c != [] {
      var rest := c[1..];
      forall i, j | i < j ensures Differ(rest, i, rest, j) { assert Differ(c, i + 1, c, j + 1); }
      forall i | 0 <= i < |rest| ensures rest[i] != c[0] { assert Differ(c, 0, c, i + 1); }
      forall x ensures x in rest <==> x in s - {c[0]} {
        assert x in c <==> x == c[0] || x in rest;
      }
      SizeOfListing(s - {c[0]}, rest);
    }
  }

  /** The index of all documents has as many entries as there are documents. */
  lemma {:induction false} DirectorySize(k: Indexer)
    requires k.Valid()
    ensures |k.Entries([ID])| == |k.docs|
  {
    hide BPT.Valid, BPT.Entries;
    assert k.Complete([ID]);
    ExactListing(k, [ID]);
    forall x ensures x in k.Entries([ID]) <==> x in k.docs.Keys { assert Wants(k.docs, [ID], x) <==> x in k.docs; }
    SizeOfListing(k.docs.Keys, k.Entries([ID]));
  }

  // ----- any run

  datatype Op = PutDoc(id: DocId, data: Doc, create: bool) | DelDoc(del: DocId) | Register(name: IndexName)

  function Does(docs: Docs, op: Op): Docs
  {
    match op
    case PutDoc(id, data, _) => docs[id := data]
    case DelDoc(id) => docs - {id}
    case Register(_) => docs
  }

  /** The documents a run leaves. */
  function After(docs: Docs, ops: seq<Op>): Docs
  {
    if ops == [] then docs else Does(After(docs, ops[..|ops| - 1]), ops[|ops| - 1])
  }

  predicate Storable(ops: seq<Op>)
  {
    forall i {:trigger ops[i]} :: 0 <= i < |ops| && ops[i].PutDoc? ==> ID_FIELD !in ops[i].data
  }

  lemma {:induction false} WidthWithin(n: IndexName)
    ensures Indexer.Width(n) <= |n|
  {
    if n != [] { WidthWithin(n[1..]); }
  }

  /** One step of a run. */
  method Perform(k: Indexer, op: Op)
    requires k.Valid() && (op.PutDoc? ==> ID_FIELD !in op.data)
    modifies k, k.trees.Values
    ensures k.Valid() && k.docs == Does(old(k.docs), op) && k.indexes >= old(k.indexes)
    ensures forall n {:trigger n in k.indexes} :: n in k.indexes ==>
      n in old(k.indexes) || Indexer.Basic(n) || op == Register(n)
    ensures Indexer.Grew(old(k.trees), k.trees) && fresh(k.trees.Values - old(k.trees.Values))
    ensures forall n {:trigger k.Complete(n)} ::
      Indexer.Width(n) > 1 && n in old(k.indexes) && old(k.Complete(n)) ==> k.Complete(n)
    ensures op.Register? && Indexer.Width(op.name) > 1 && op.name !in old(k.indexes) && |old(k.docs)| <= 1000 ==>
      op.name in k.indexes && k.Complete(op.name)
  {
    hide BPT.Valid, BPT.Entries, Indexer.Valid, Indexer.Tree, Indexer.Entries, Indexer.Sound, Indexer.Complete, Has;
    match op
    case PutDoc(id, data, create) => k.Put(id, data, create);
    case DelDoc(id) => k.Del(id);
    case Register(n) =>
      WidthWithin(n);
      DirectorySize(k);
      k.AddIndex(n);
  }

  /** Step j is the first to register n, with at most a thousand documents in the directory. */
  predicate RegisteredAt(n: IndexName, j: int, docs: Docs, ops: seq<Op>)
  {
    0 <= j < |ops| && ops[j] == Register(n) && Register(n) !in ops[..j] && |After(docs, ops[..j])| <= 1000
  }

  /** After any writes and index registrations every single-field index, and every composite
      one that was complete to begin with or was registered on the way while the directory
      was small enough, lists exactly the documents having its fields. */
  method Run(k: Indexer, ops: seq<Op>)
    requires k.Valid() && Storable(ops)
    modifies k, k.trees.Values
    ensures k.Valid() && k.docs == After(old(k.docs), ops)
    ensures k.indexes >= old(k.indexes)
    ensures forall n {:trigger n in k.indexes} :: n in k.indexes ==>
      n in old(k.indexes) || Indexer.Basic(n) || Register(n) in ops
    ensures Indexer.Grew(old(k.trees), k.trees) && fresh(k.trees.Values - old(k.trees.Values))
    ensures forall n {:trigger k.Complete(n)} ::
      Indexer.Basic(n) || (Indexer.Width(n) > 1 && n in old(k.indexes) && old(k.Complete(n))) ==> k.Complete(n)
    ensures forall n, j {:trigger RegisteredAt(n, j, old(k.docs), ops)} ::
      RegisteredAt(n, j, old(k.docs), ops) && Indexer.Width(n) > 1 && n !in old(k.indexes) ==> k.Complete(n)
  {
    hide BPT.Valid, BPT.Entries, Indexer.Valid, Indexer.Tree, Indexer.Entries, Indexer.Sound, Indexer.Complete, Has,
      Does, Indexer.Width, Indexer.Basic;
    for i := 0 to |ops|
      invariant k.Valid() && k.docs == After(old(k.docs), ops[..i])
      invariant k.indexes >= old(k.indexes)
      invariant forall n {:trigger n in k.indexes} :: n in k.indexes ==>
        n in old(k.indexes) || Indexer.Basic(n) || Register(n) in ops[..i]
      invariant Indexer.Grew(old(k.trees), k.trees) && fresh(k.trees.Values - old(k.trees.Values))
      invariant forall n {:trigger k.Complete(n)} ::
        Indexer.Width(n) > 1 && n in old(k.indexes) && old(k.Complete(n)) ==> k.Complete(n)
      invariant forall n, j {:trigger RegisteredAt(n, j, old(k.docs), ops)} ::
        RegisteredAt(n, j, old(k.docs), ops) && j < i && Indexer.Width(n) > 1 && n !in old(k.indexes) ==>
          n in k.indexes && k.Complete(n)
    {
      assert ops[..i + 1][..i] == ops[..i] && ops[..i + 1] == ops[..i] + [ops[i]];
      if ops[i].Register? { Indexer.BasicWidth(ops[i].name); }
      Perform(k, ops[i]);
    }
    assert ops[..|ops|] == ops;
    BasicComplete(k);
  }

  lemma {:induction false} BasicComplete(k: Indexer)
    requires k.Valid()
    ensures forall n {:trigger k.Complete(n)} :: Indexer.Basic(n) ==> k.Complete(n)
  {
    hide BPT.Valid, BPT.Entries, Indexer.Tree, Indexer.Entries, Indexer.Sound, Indexer.Complete;
  }

  /** The index comes first and is kept up through the writes. */
  method RegisterThenRun(k: Indexer, n: IndexName, ops: seq<Op>)
    requires k.Valid() && n !in k.indexes && Indexer.Width(n) > 1 && Storable(ops) && |k.docs| <= 1000
    modifies k, k.trees.Values
    ensures k.Valid() && k.docs == After(old(k.docs), ops) && k.Complete(n)
    ensures fresh(k.trees.Values - old(k.trees.Values))
  {
    hide BPT.Valid, BPT.Entries, Indexer.Valid, Indexer.Tree, Indexer.Entries, Indexer.Sound, Indexer.Complete, Has;
    WidthWithin(n);
    DirectorySize(k);
    k.AddIndex(n);
    Run(k, ops);
  }

  /** The writes come first and the index is built from what they left. */
  method RunThenRegister(k: Indexer, n: IndexName, ops: seq<Op>)
    requires k.Valid() && n !in k.indexes && Indexer.Width(n) > 1 && Storable(ops) && Register(n) !in ops
    requires |After(k.docs, ops)| <= 1000
    modifies k, k.trees.Values
    ensures k.Valid() && k.docs == After(old(k.docs), ops) && k.Complete(n)
  {
    hide BPT.Valid, BPT.Entries, Indexer.Valid, Indexer.Tree, Indexer.Entries, Indexer.Sound, Indexer.Complete, Has;
    WidthWithin(n);
    Indexer.BasicWidth(n);
    Run(k, ops);
    DirectorySize(k);
    k.AddIndex(n);
  }

  /** In directories of at most a thousand documents an index built after the writes lists
      the same as one that was there before them and kept up. */
  method EarlyOrLate(a: Indexer, b: Indexer, n: IndexName, ops: seq<Op>)
    requires a != b && a.Valid() && b.Valid() && a.docs == b.docs && a.trees.Values !! b.trees.Values
    requires n !in a.indexes && n !in b.indexes && Indexer.Width(n) > 1 && Storable(ops) && Register(n) !in ops
    requires |a.docs| <= 1000 && |After(a.docs, ops)| <= 1000
    modifies a, b, a.trees.Values, b.trees.Values
    ensures a.Valid() && b.Valid() && a.docs == b.docs == After(old(a.docs), ops)
    ensures a.Complete(n) && b.Complete(n) && a.Entries(n) == b.Entries(n)
  {
    hide BPT.Valid, BPT.Entries, Indexer.Valid, Indexer.Tree, Indexer.Entries, Indexer.Sound, Indexer.Complete, Has;
    RegisterThenRun(a, n, ops);
    RunThenRegister(b, n, ops);
    SameContents(a, b, n);
  }

  /** Taking a complete index down and adding it again gives the same list. */
  method RemoveAndAdd(k: Indexer, n: IndexName)
    requires k.Valid() && n in k.indexes && |n| >= 2 && Indexer.Width(n) > 0 && k.Complete(n) && |k.docs| <= 1000
    modifies k`indexes, k`trees, k.trees.Values
    ensures k.Valid() && k.indexes == old(k.indexes) && k.Entries(n) == old(k.Entries(n))
  {
    hide BPT.Valid, BPT.Entries, Indexer.Valid, Indexer.Tree, Indexer.Entries, Indexer.Sound, Indexer.Complete, Has;
    ghost var c := k.Entries(n);
    DirectorySize(k);
    ExactListing(k, n);
    assert forall x {:trigger x in c} :: x in c <==> Wants(k.docs, n, x);
    k.RemoveIndex(n);
    DirectorySize(k);
    k.AddIndex(n);
    ExactListing(k, n);
    forall x ensures x in c <==> x in k.Entries(n) { assert x in c <==> Wants(k.docs, n, x); }
    SortedUnique(TreeFields(n), k.docs, c, k.Entries(n));
  }
}
