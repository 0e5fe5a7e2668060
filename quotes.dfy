/** The quote record, the raw elements a parsed JSON payload holds, the shape filter applied when
    loading or importing, the pair key used for de-duplication, and the add-form validation. */
module Quotes {
  import opened Text
  import Wrappers

  /** One quote of the store. */
  datatype Quote = Quote(text: string, category: string)

  /** What a property lookup on a parsed JSON element yields: a string, or anything else
      (undefined, null, a number, a boolean, an array or an object). */
  datatype Field = Str(s: string) | NotStr

  /** An element of a parsed JSON array, reduced to what the shape check looks at:
      a falsy value (null, false, 0, ""), or a truthy value with its `text` and `category` lookups. */
  datatype Item = Falsy | Truthy(text: Field, category: Field)

  /** The result of parsing a stored string or an imported file. */
  datatype Document = Unparseable | NonArray | ArrayOf(items: seq<Item>)

  /** The three quotes the store is seeded with. */
  function Defaults(): seq<Quote> {
    [ Quote("The best way to predict the future is to create it.", "Motivation"),
      Quote("In the middle of difficulty lies opportunity.", "Inspiration"),
      Quote("Happiness depends upon ourselves.", "Philosophy") ]
  }

  /** The shape check: a truthy element whose `text` and `category` are both strings. */
  predicate WellFormed(it: Item) {
    it.Truthy? && it.text.Str? && it.category.Str?
  }

  /** The quote a well-formed element stands for. */
  function AsQuote(it: Item): Quote
    requires WellFormed(it)
  {
    Quote(it.text.s, it.category.s)
  }

  /** The well-formed elements of `xs`, as quotes, in their original order. */
  function ValidItems(xs: seq<Item>): (r: seq<Quote>)
    ensures |r| <= |xs|
  {
    if xs == [] then []
    else (if WellFormed(xs[0]) then [AsQuote(xs[0])] else []) + ValidItems(xs[1..])
  }

  /** The filter distributes over concatenation, so it keeps the relative order of what it keeps. */
  lemma {:induction false} ValidItemsConcat(xs: seq<Item>, ys: seq<Item>)
    ensures ValidItems(xs + ys) == ValidItems(xs) + ValidItems(ys)
  {
    if xs == [] {
      assert xs + ys == ys;
    } else {
      var head := if WellFormed(xs[0]) then [AsQuote(xs[0])] else [];
      assert (xs + ys)[0] == xs[0];
      assert (xs + ys)[1..] == xs[1..] + ys;
      ValidItemsConcat(xs[1..], ys);
      assert ValidItems(xs + ys) == head + (ValidItems(xs[1..]) + ValidItems(ys));
      assert ValidItems(xs) == head + ValidItems(xs[1..]);
    }
  }

  /** A quote survives the filter exactly when some well-formed element stands for it. */
  lemma {:induction false} ValidItemsMember(xs: seq<Item>, q: Quote)
    ensures q in ValidItems(xs) <==>
            exists i :: 0 <= i < |xs| && WellFormed(xs[i]) && AsQuote(xs[i]) == q
  {
    if xs != [] {
      ValidItemsMember(xs[1..], q);
      if exists i :: 0 <= i < |xs| && WellFormed(xs[i]) && AsQuote(xs[i]) == q {
        var i :| 0 <= i < |xs| && WellFormed(xs[i]) && AsQuote(xs[i]) == q;
        if i > 0 {
          assert xs[1..][i - 1] == xs[i];
        }
      }
      if q in ValidItems(xs[1..]) {
        var j :| 0 <= j < |xs[1..]| && WellFormed(xs[1..][j]) && AsQuote(xs[1..][j]) == q;
        assert xs[j + 1] == xs[1..][j];
      }
    }
  }

  /** The filter keeps nothing exactly when no element is well formed. */
  lemma {:induction false} ValidItemsEmptyIff(xs: seq<Item>)
    ensures ValidItems(xs) == [] <==> forall i :: 0 <= i < |xs| ==> !WellFormed(xs[i])
  {
    if xs != [] {
      ValidItemsEmptyIff(xs[1..]);
      assert forall i :: 1 <= i < |xs| ==> xs[i] == xs[1..][i - 1];
    }
  }

  /** The filter keeps everything when every element is well formed. */
  lemma {:induction false} ValidItemsAllWellFormed(xs: seq<Item>)
    requires forall i :: 0 <= i < |xs| ==> WellFormed(xs[i])
    ensures |ValidItems(xs)| == |xs|
    ensures forall i :: 0 <= i < |xs| ==> ValidItems(xs)[i] == AsQuote(xs[i])
  {
    if xs != [] {
      ValidItemsAllWellFormed(xs[1..]);
    }
  }

  /** The de-duplication key of a quote: its text, the separator "|||", and its category. */
  function Key(q: Quote): string {
    q.text + "|||" + q.category
  }

  /** The keys of every quote of `qs`. */
  function KeySet(qs: seq<Quote>): set<string> {
    set q | q in qs :: Key(q)
  }

  lemma KeySetAppend(qs: seq<Quote>, q: Quote)
    ensures KeySet(qs + [q]) == KeySet(qs) + {Key(q)}
  {
    assert forall x :: x in qs + [q] <==> x in qs || x == q;
  }

  lemma KeySetConcat(qs: seq<Quote>, rs: seq<Quote>)
    ensures KeySet(qs + rs) == KeySet(qs) + KeySet(rs)
  {
    assert forall x :: x in qs + rs <==> x in qs || x in rs;
  }

  /** The key is not injective: two different quotes can share a key when a field contains '|'. */
  lemma KeyCollision()
    ensures Quote("a|||b", "c") != Quote("a", "b|||c")
    ensures Key(Quote("a|||b", "c")) == Key(Quote("a", "b|||c"))
  {
    assert Quote("a|||b", "c").text != Quote("a", "b|||c").text;
    assert Key(Quote("a|||b", "c")) == "a|||b|||c";
    assert Key(Quote("a", "b|||c")) == "a|||b|||c";
  }

  /** With no '|' in its text, a key's first '|' sits right after the text. */
  lemma {:induction false} KeySplits(q: Quote, n: nat)
    requires '|' !in q.text
    requires n < |q.text| + 3
    ensures Key(q)[n] == '|' <==> n >= |q.text|
  {
    if n < |q.text| {
      assert Key(q)[n] == q.text[n];
    }
  }

  /** Quotes whose texts hold no '|' have equal keys only when they are equal. */
  lemma KeyInjective(p: Quote, q: Quote)
    requires '|' !in p.text && '|' !in q.text
    requires Key(p) == Key(q)
    ensures p == q
  {
    if |p.text| < |q.text| {
      KeySplits(p, |p.text|);
      KeySplits(q, |p.text|);
      assert false;
    } else if |q.text| < |p.text| {
      KeySplits(p, |q.text|);
      KeySplits(q, |q.text|);
      assert false;
    }
    assert p.text == Key(p)[..|p.text|];
    assert q.text == Key(q)[..|q.text|];
    assert p.category == Key(p)[|p.text| + 3..];
    assert q.category == Key(q)[|q.text| + 3..];
  }

  /** The add form's check: both trimmed fields must be non-empty; the quote added is the trimmed pair. */
  function ValidateForm(text: string, category: string): (r: Wrappers.Option<Quote>)
    ensures r.None? <==> AllSpace(text) || AllSpace(category)
    ensures r.Some? ==> r.value.text != [] && r.value.category != []
    ensures r.Some? ==> Trim(r.value.text) == r.value.text && Trim(r.value.category) == r.value.category
    ensures r.Some? ==> r.value == Quote(Trim(text), Trim(category))
  {
    TrimEmptyIff(text);
    TrimEmptyIff(category);
    TrimIdempotent(text);
    TrimIdempotent(category);
    var t, c := Trim(text), Trim(category);
    if t == [] || c == [] then Wrappers.None else Wrappers.Some(Quote(t, c))
  }
}
