/** The de-duplicating merge of an import: a reference definition of which items get appended,
    and what it guarantees. */
module Merge {
  import opened Quotes

  /** The quotes of `xs` that an import appends, given the keys `seen` already present:
      each item whose key is not yet seen is kept, and its key counts as seen from then on. */
  function MergeFrom(seen: set<string>, xs: seq<Quote>): (r: seq<Quote>)
    ensures |r| <= |xs|
    ensures forall q :: q in r ==> q in xs && Key(q) !in seen
    decreases |xs|
  {
    if xs == [] then []
    else if Key(xs[0]) in seen then MergeFrom(seen, xs[1..])
    else [xs[0]] + MergeFrom(seen + {Key(xs[0])}, xs[1..])
  }

  /** No two quotes of `qs` share a key. */
  predicate DistinctKeys(qs: seq<Quote>) {
    forall i, j :: 0 <= i < j < |qs| ==> Key(qs[i]) != Key(qs[j])
  }

  /** No two appended quotes share a key. */
  lemma {:induction false} MergeFromDistinctKeys(seen: set<string>, xs: seq<Quote>)
    ensures DistinctKeys(MergeFrom(seen, xs))
    decreases |xs|
  {
    if xs != [] {
      if Key(xs[0]) in seen {
        assert MergeFrom(seen, xs) == MergeFrom(seen, xs[1..]);
        MergeFromDistinctKeys(seen, xs[1..]);
      } else {
        var rest := MergeFrom(seen + {Key(xs[0])}, xs[1..]);
        MergeFromDistinctKeys(seen + {Key(xs[0])}, xs[1..]);
        var r := [xs[0]] + rest;
        forall i, j | 0 <= i < j < |r| ensures Key(r[i]) != Key(r[j]) {
          assert r[j] == rest[j - 1];
          if i > 0 {
            assert r[i] == rest[i - 1];
          } else {
            assert rest[j - 1] in rest;
          }
        }
      }
    }
  }

  /** After the merge every item's key is present: either it was seen before or it was appended. */
  lemma {:induction false} MergeFromCovers(seen: set<string>, xs: seq<Quote>)
    ensures forall q :: q in xs ==> Key(q) in seen + KeySet(MergeFrom(seen, xs))
    decreases |xs|
  {
    if xs != [] {
      var k := Key(xs[0]);
      var seen' := if k in seen then seen else seen + {k};
      MergeFromCovers(seen', xs[1..]);
      var rest := MergeFrom(seen', xs[1..]);
      if k !in seen {
        KeySetConcat([xs[0]], rest);
        assert KeySet([xs[0]]) == {k};
      }
      forall q | q in xs ensures Key(q) in seen + KeySet(MergeFrom(seen, xs)) {
        if q != xs[0] {
          assert q in xs[1..];
        }
      }
    }
  }

  /** The merge appends nothing exactly when every item's key is already present. */
  lemma {:induction false} MergeFromEmptyIff(seen: set<string>, xs: seq<Quote>)
    ensures MergeFrom(seen, xs) == [] <==> forall q :: q in xs ==> Key(q) in seen
    decreases |xs|
  {
    if xs != [] {
      if Key(xs[0]) in seen {
        MergeFromEmptyIff(seen, xs[1..]);
        forall q | q in xs[1..] ensures q in xs { }
        forall q | q in xs && q != xs[0] ensures q in xs[1..] { }
      }
    }
  }

  /** Items with pairwise distinct keys, none of them present, are all appended, in order. */
  lemma {:induction false} MergeFromDisjoint(seen: set<string>, xs: seq<Quote>)
    requires forall i :: 0 <= i < |xs| ==> Key(xs[i]) !in seen
    requires DistinctKeys(xs)
    ensures MergeFrom(seen, xs) == xs
    decreases |xs|
  {
    if xs != [] {
      var seen' := seen + {Key(xs[0])};
      forall i | 0 <= i < |xs[1..]| ensures Key(xs[1..][i]) !in seen' {
        assert xs[1..][i] == xs[i + 1];
      }
      MergeFromDisjoint(seen', xs[1..]);
    }
  }

  /** A second import of the same items into the result of the first appends nothing. */
  lemma MergeFromIdempotent(store: seq<Quote>, xs: seq<Quote>)
    ensures MergeFrom(KeySet(store + MergeFrom(KeySet(store), xs)), xs) == []
  {
    var appended := MergeFrom(KeySet(store), xs);
    MergeFromCovers(KeySet(store), xs);
    KeySetConcat(store, appended);
    MergeFromEmptyIff(KeySet(store + appended), xs);
  }

  /** After an import every item's key occurs in the store. */
  lemma MergedStoreHoldsAllKeys(store: seq<Quote>, xs: seq<Quote>)
    ensures forall q :: q in xs ==> Key(q) in KeySet(store + MergeFrom(KeySet(store), xs))
  {
    MergeFromCovers(KeySet(store), xs);
    KeySetConcat(store, MergeFrom(KeySet(store), xs));
  }

  /** Because the key is a concatenation, an import can skip a quote that the store does not hold. */
  lemma KeyCollisionSkipsImport()
    ensures Quote("a", "b|||c") !in [Quote("a|||b", "c")]
    ensures MergeFrom(KeySet([Quote("a|||b", "c")]), [Quote("a", "b|||c")]) == []
  {
    KeyCollision();
    assert Key(Quote("a|||b", "c")) in KeySet([Quote("a|||b", "c")]);
  }

  /** When no text contains '|', a key is present exactly when the quote itself is:
      the key-based de-duplication then coincides with de-duplication by (text, category). */
  lemma KeySetMemberIff(store: seq<Quote>, q: Quote)
    requires forall p :: p in store ==> '|' !in p.text
    requires '|' !in q.text
    ensures Key(q) in KeySet(store) <==> q in store
  {
    if Key(q) in KeySet(store) {
      var p :| p in store && Key(p) == Key(q);
      KeyInjective(p, q);
    }
  }
}
