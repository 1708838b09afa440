/** Merge and deduplication: NLP entities followed by lab entities, keeping
    the first entity of each key (lower-cased text, type, start of the first
    span) and dropping every later one. */
module Dedupe {

  import opened Text
  import opened Entities

  datatype Key = Key(text: string, etype: EntityType, start: nat)

  /** Every entity has a first span to take the key's start from; the
      source would raise `IndexError` on one that has none. */
  predicate Keyed(es: seq<Entity>)
  {
    forall e :: e in es ==> |e.spans| > 0
  }

  /** `(e["text"].lower(), e["type"], e["spans"][0]["start"])`. */
  function KeyOf(e: Entity): Key
    requires |e.spans| > 0
  {
    Key(Lower(e.text), e.etype, e.spans[0].start)
  }

  function KeySet(es: seq<Entity>): set<Key>
    requires Keyed(es)
  {
    set e | e in es :: KeyOf(e)
  }

  lemma KeySetSnoc(es: seq<Entity>, x: Entity)
    requires Keyed(es) && |x.spans| > 0
    ensures Keyed(es + [x]) && KeySet(es + [x]) == KeySet(es) + {KeyOf(x)}
  {
    assert forall e :: e in es + [x] <==> e in es || e == x;
  }

  /** No two entities share a key. */
  ghost predicate DistinctKeys(es: seq<Entity>)
    requires Keyed(es)
  {
    forall i, j :: 0 <= i < j < |es| ==> KeyOf(es[i]) != KeyOf(es[j])
  }

  /** Position i holds the first entity with its key. */
  ghost predicate IsFirst(es: seq<Entity>, i: nat)
    requires Keyed(es) && i < |es|
  {
    forall j :: 0 <= j < i ==> KeyOf(es[j]) != KeyOf(es[i])
  }

  /** Reference definition of the dedup loop: an entity is kept when its key
      is not among the keys of the entities before it. */
  function Dedup(es: seq<Entity>): (r: seq<Entity>)
    requires Keyed(es)
    ensures forall e :: e in r ==> e in es
    ensures Keyed(r)
  {
    if es == [] then []
    else
      var p, x := es[..|es| - 1], es[|es| - 1];
      assert forall e :: e in p ==> e in es;
      if KeyOf(x) in KeySet(p) then Dedup(p) else Dedup(p) + [x]
  }

  /** The positions Dedup keeps, in order. */
  function KeptPositions(es: seq<Entity>): seq<nat>
    requires Keyed(es)
  {
    if es == [] then []
    else
      var p, x := es[..|es| - 1], es[|es| - 1];
      assert forall e :: e in p ==> e in es;
      if KeyOf(x) in KeySet(p) then KeptPositions(p) else KeptPositions(p) + [|es| - 1]
  }

  /** `entities.extend(lab_entities)` followed by the dedup loop: no key
      twice, and every key of either list represented. */
  function Merge(nlp: seq<Entity>, labs: seq<Entity>): (r: seq<Entity>)
    requires Keyed(nlp) && Keyed(labs)
    ensures Keyed(r) && DistinctKeys(r)
    ensures KeySet(r) == KeySet(nlp) + KeySet(labs)
  {
    KeySetConcat(nlp, labs);
    DedupKeySet(nlp + labs);
    DedupDistinct(nlp + labs);
    Dedup(nlp + labs)
  }

  /** Every key of the input is represented in the output, and no other. */
  lemma {:induction false} DedupKeySet(es: seq<Entity>)
    requires Keyed(es)
    ensures KeySet(Dedup(es)) == KeySet(es)
  {
    if es != [] {
      var p, x := es[..|es| - 1], es[|es| - 1];
      assert es == p + [x];
      assert Keyed(p);
      DedupKeySet(p);
      KeySetSnoc(p, x);
      if KeyOf(x) !in KeySet(p) {
        KeySetSnoc(Dedup(p), x);
      }
    }
  }

  /** No two output entities share a key. */
  lemma {:induction false} DedupDistinct(es: seq<Entity>)
    requires Keyed(es)
    ensures DistinctKeys(Dedup(es))
  {
    if es != [] {
      var p, x := es[..|es| - 1], es[|es| - 1];
      assert forall e :: e in p ==> e in es;
      DedupDistinct(p);
      if KeyOf(x) !in KeySet(p) {
        DedupKeySet(p);
        var d := Dedup(p);
        forall i | 0 <= i < |d|
          ensures KeyOf(d[i]) != KeyOf(x)
        {
          assert d[i] in d;
        }
        assert Dedup(es) == d + [x];
      }
    }
  }

  /** The prefix of a list with distinct keys has distinct keys, none of
      them the last entity's. */
  lemma DistinctPrefix(es: seq<Entity>)
    requires Keyed(es) && DistinctKeys(es) && |es| > 0
    ensures Keyed(es[..|es| - 1]) && DistinctKeys(es[..|es| - 1])
    ensures KeyOf(es[|es| - 1]) !in KeySet(es[..|es| - 1])
  {
    var p, x := es[..|es| - 1], es[|es| - 1];
    assert forall e :: e in p ==> e in es;
    forall e | e in p
      ensures KeyOf(e) != KeyOf(x)
    {
      var i :| 0 <= i < |p| && p[i] == e;
      assert es[i] == e;
    }
  }

  /** An input that already has distinct keys is returned unchanged. */
  lemma {:induction false} DedupOfDistinct(es: seq<Entity>)
    requires Keyed(es) && DistinctKeys(es)
    ensures Dedup(es) == es
  {
    if es != [] {
      var p, x := es[..|es| - 1], es[|es| - 1];
      DistinctPrefix(es);
      DedupOfDistinct(p);
      assert es == p + [x];
    }
  }

  /** Deduplicating twice is deduplicating once. */
  lemma {:induction false} DedupIdempotent(es: seq<Entity>)
    requires Keyed(es)
    ensures Dedup(Dedup(es)) == Dedup(es)
  {
    DedupDistinct(es);
    DedupOfDistinct(Dedup(es));
  }

  /** `merge(merge(A, B), [])` is `merge(A, B)`. */
  lemma MergeIdempotent(nlp: seq<Entity>, labs: seq<Entity>)
    requires Keyed(nlp) && Keyed(labs)
    ensures Keyed(Merge(nlp, labs))
    ensures Merge(Merge(nlp, labs), []) == Merge(nlp, labs)
  {
    var m := Merge(nlp, labs);
    assert m + [] == m;
    DedupIdempotent(nlp + labs);
  }

  /** Before the last position, being first does not depend on the last entity. */
  lemma IsFirstInPrefix(es: seq<Entity>, i: nat)
    requires Keyed(es) && i < |es| - 1
    ensures Keyed(es[..|es| - 1]) && (IsFirst(es, i) <==> IsFirst(es[..|es| - 1], i))
  {
    var p := es[..|es| - 1];
    assert forall e :: e in p ==> e in es;
    assert forall j :: 0 <= j < i ==> es[j] == p[j];
  }

  /** The last entity is first iff its key is not among the earlier keys. */
  lemma IsFirstLast(es: seq<Entity>)
    requires Keyed(es) && |es| > 0
    ensures Keyed(es[..|es| - 1])
    ensures IsFirst(es, |es| - 1) <==> KeyOf(es[|es| - 1]) !in KeySet(es[..|es| - 1])
  {
    var n := |es| - 1;
    var p, x := es[..n], es[n];
    assert forall e :: e in p ==> e in es;
    if KeyOf(x) in KeySet(p) {
      var e :| e in p && KeyOf(e) == KeyOf(x);
      var j :| 0 <= j < |p| && p[j] == e;
      assert KeyOf(es[j]) == KeyOf(es[n]);
    } else {
      forall j | 0 <= j < n
        ensures KeyOf(es[j]) != KeyOf(es[n])
      {
        assert p[j] in p;
      }
    }
  }

  /** The kept positions lie in range, increase, and pick out Dedup's output. */
  lemma {:induction false} KeptPositionsSelect(es: seq<Entity>)
    requires Keyed(es)
    ensures var idx := KeptPositions(es);
      && |idx| == |Dedup(es)|
      && (forall k :: 0 <= k < |idx| ==> idx[k] < |es| && Dedup(es)[k] == es[idx[k]])
      && (forall k, l :: 0 <= k < l < |idx| ==> idx[k] < idx[l])
  {
    if es != [] {
      var p := es[..|es| - 1];
      assert forall e :: e in p ==> e in es;
      KeptPositionsSelect(p);
    }
  }

  /** Position i is kept iff it holds the first entity with its key. */
  lemma {:induction false} KeptPositionsAreFirsts(es: seq<Entity>)
    requires Keyed(es)
    ensures forall i :: 0 <= i < |es| ==> (i in KeptPositions(es) <==> IsFirst(es, i))
  {
    if es != [] {
      var n := |es| - 1;
      var p := es[..n];
      assert forall e :: e in p ==> e in es;
      KeptPositionsAreFirsts(p);
      KeptPositionsSelect(p);
      forall i | 0 <= i < n
        ensures IsFirst(es, i) == IsFirst(p, i)
      {
        IsFirstInPrefix(es, i);
      }
      IsFirstLast(es);
    }
  }

  /** Dedup keeps exactly the first occurrence of each key, in input order:
      output entity k is the input entity at the k-th kept position, the
      kept positions increase, and position i is kept iff it holds the first
      entity with its key. So the output is an order-preserving subsequence
      of the input. */
  lemma DedupKeepsFirstOccurrences(es: seq<Entity>)
    requires Keyed(es)
    ensures var idx := KeptPositions(es);
      && |idx| == |Dedup(es)|
      && (forall k :: 0 <= k < |idx| ==> idx[k] < |es| && Dedup(es)[k] == es[idx[k]])
      && (forall k, l :: 0 <= k < l < |idx| ==> idx[k] < idx[l])
      && (forall i :: 0 <= i < |es| ==> (i in idx <==> IsFirst(es, i)))
  {
    KeptPositionsSelect(es);
    KeptPositionsAreFirsts(es);
  }

  lemma KeySetConcat(a: seq<Entity>, b: seq<Entity>)
    requires Keyed(a) && Keyed(b)
    ensures Keyed(a + b) && KeySet(a + b) == KeySet(a) + KeySet(b)
  {
    assert forall e :: e in a + b <==> e in a || e in b;
  }

  /** Keys carry the entity type, so lists of lab and non-lab entities
      share no key. */
  lemma LabKeysApart(a: seq<Entity>, b: seq<Entity>)
    requires Keyed(a) && Keyed(b)
    requires forall e :: e in a ==> e.etype != Lab
    requires forall e :: e in b ==> e.etype == Lab
    ensures KeySet(a) !! KeySet(b)
  {
    forall k | k in KeySet(a)
      ensures k !in KeySet(b)
    {
      var e :| e in a && KeyOf(e) == k;
    }
  }

  /** When no key is shared between two lists, deduplicating their
      concatenation deduplicates each list on its own: nothing of the second
      list is dropped in favour of the first. */
  lemma {:induction false} DedupDisjoint(a: seq<Entity>, b: seq<Entity>)
    requires Keyed(a) && Keyed(b) && KeySet(a) !! KeySet(b)
    ensures Keyed(a + b) && Dedup(a + b) == Dedup(a) + Dedup(b)
  {
    KeySetConcat(a, b);
    if b == [] {
      assert a + b == a;
    } else {
      var p, x := b[..|b| - 1], b[|b| - 1];
      assert forall e :: e in p ==> e in b;
      assert KeyOf(x) in KeySet(b);
      DedupDisjoint(a, p);
      KeySetConcat(a, p);
      assert (a + b)[..|a + b| - 1] == a + p;
      assert (a + b)[|a + b| - 1] == x;
    }
  }

  /** The dedup loop of `extract_clinical_entities`: `seen` holds the keys
      met so far, `deduped` the entities kept. */
  method DedupEntities(entities: seq<Entity>) returns (deduped: seq<Entity>)
    requires Keyed(entities)
    ensures deduped == Dedup(entities)
    ensures Keyed(deduped) && DistinctKeys(deduped)
    ensures KeySet(deduped) == KeySet(entities)
  {
    var seen: set<Key> := {};
    deduped := [];
    for i := 0 to |entities|
      invariant Keyed(entities[..i])
      invariant seen == KeySet(entities[..i])
      invariant deduped == Dedup(entities[..i])
    {
      var e := entities[i];
      var key := KeyOf(e);
      assert entities[..i + 1][..i] == entities[..i];
      assert entities[..i + 1] == entities[..i] + [e];
      KeySetSnoc(entities[..i], e);
      if key !in seen {
        seen := seen + {key};
        deduped := deduped + [e];
      }
    }
    assert entities[..|entities|] == entities;
    DedupDistinct(entities);
    DedupKeySet(entities);
  }
}
