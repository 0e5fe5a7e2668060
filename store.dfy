/** The quote store: the module-level list of quotes and the operations that read and change it. */
module Store {
  import opened Wrappers
  import opened Text
  import opened Quotes
  import opened Merge

  /** What an import reports to the user. `Added(0)` is the "duplicates skipped" notice. */
  datatype ImportOutcome = NoFile | InvalidFormat | NoValidQuotes | Added(count: nat)

  /** The stored or uploaded payload parsed to an array. */
  predicate IsArray(doc: Option<Document>) {
    doc.Some? && doc.value.ArrayOf?
  }

  /** The quotes a load makes current: the array's well-formed elements, or, for a missing,
      unparseable or non-array payload, the quotes held before. */
  function LoadedQuotes(current: seq<Quote>, stored: Option<Document>): (r: seq<Quote>)
    ensures !IsArray(stored) ==> r == current
    ensures IsArray(stored) ==> forall q :: q in r <==>
              exists i :: 0 <= i < |stored.value.items| &&
                          WellFormed(stored.value.items[i]) && AsQuote(stored.value.items[i]) == q
  {
    if IsArray(stored) then
      assert forall q :: q in ValidItems(stored.value.items) <==>
               exists i :: 0 <= i < |stored.value.items| &&
                           WellFormed(stored.value.items[i]) && AsQuote(stored.value.items[i]) == q by {
        forall q ensures q in ValidItems(stored.value.items) <==>
                         exists i :: 0 <= i < |stored.value.items| &&
                                     WellFormed(stored.value.items[i]) && AsQuote(stored.value.items[i]) == q {
          ValidItemsMember(stored.value.items, q);
        }
      }
      ValidItems(stored.value.items)
    else current
  }

  /** What a random pick may show for a store of `n` quotes and the index shown last:
      nothing for an empty store, otherwise an index in range that, when there is a last index
      and more than one quote, differs from it. */
  predicate PickAllowed(n: nat, last: Option<int>, shown: Option<nat>) {
    (shown.None? <==> n == 0) &&
    (shown.Some? ==> shown.value < n && (last.Some? && n > 1 ==> shown.value != last.value))
  }

  /** Whatever the store's size and the last index, some outcome is allowed. */
  lemma PickAlwaysPossible(n: nat, last: Option<int>)
    ensures exists shown :: PickAllowed(n, last, shown)
  {
    if n == 0 {
      assert PickAllowed(n, last, None);
    } else if last.Some? && last.value == 0 && n > 1 {
      assert PickAllowed(n, last, Some(1));
    } else {
      assert PickAllowed(n, last, Some(0));
    }
  }

  /** An index kept in session storage is reused at start-up only when it is in range. */
  predicate Restorable(last: Option<int>, n: nat) {
    last.Some? && 0 <= last.value < n
  }

  class QuoteStore {
    var quotes: seq<Quote>

    /** The store as the page starts it: the three default quotes. */
    constructor ()
      ensures quotes == Defaults()
    {
      quotes := Defaults();
    }

    /** Adds the quote typed into the form, trimmed, unless a trimmed field is empty. */
    method AddFromForm(textInput: string, categoryInput: string) returns (added: bool)
      modifies this
      ensures added <==> !AllSpace(textInput) && !AllSpace(categoryInput)
      ensures added ==> quotes == old(quotes) + [Quote(Trim(textInput), Trim(categoryInput))]
      ensures !added ==> quotes == old(quotes)
    {
      var checked := ValidateForm(textInput, categoryInput);
      match checked
      case None =>
        added := false;
      case Some(q) =>
        quotes := quotes + [q];
        added := true;
    }

    /** Replaces the store by the well-formed elements of the stored payload when it parsed to
        an array; otherwise keeps the store and reports false. */
    method Load(stored: Option<Document>) returns (loaded: bool)
      modifies this
      ensures loaded <==> IsArray(stored)
      ensures quotes == LoadedQuotes(old(quotes), stored)
      ensures loaded ==> quotes == ValidItems(stored.value.items)
    {
      match stored
      case None =>
        loaded := false;
      case Some(doc) =>
        match doc
        case ArrayOf(items) =>
          quotes := ValidItems(items);
          loaded := true;
        case _ =>
          loaded := false;
    }

    /** Appends each quote of `valid` whose key is not yet present, keeping the set of present
        keys up to date, and returns how many were appended. */
    method Merge(valid: seq<Quote>) returns (addedCount: nat)
      modifies this
      ensures quotes == old(quotes) + MergeFrom(KeySet(old(quotes)), valid)
      ensures addedCount == |quotes| - |old(quotes)|
    {
      var existing := set q | q in quotes :: Key(q);
      addedCount := 0;
      var i := 0;
      while i < |valid|
        invariant 0 <= i <= |valid|
        invariant existing == KeySet(quotes)
        invariant quotes + MergeFrom(existing, valid[i..]) ==
                  old(quotes) + MergeFrom(KeySet(old(quotes)), valid)
        invariant addedCount == |quotes| - |old(quotes)|
      {
        var q := valid[i];
        var key := Key(q);
        assert valid[i..][1..] == valid[i + 1..];
        if key !in existing {
          KeySetAppend(quotes, q);
          quotes := quotes + [q];
          existing := existing + {key};
          addedCount := addedCount + 1;
        }
        i := i + 1;
      }
    }

    /** Imports a parsed file: rejects a missing file and a payload that is not an array,
        reports a batch without well-formed elements, and otherwise merges the well-formed ones. */
    method Import(file: Option<Document>) returns (outcome: ImportOutcome)
      modifies this
      ensures outcome == NoFile <==> file.None?
      ensures outcome == InvalidFormat <==> file.Some? && !file.value.ArrayOf?
      ensures outcome == NoValidQuotes <==> IsArray(file) && ValidItems(file.value.items) == []
      ensures outcome.Added? ==> outcome.count == |quotes| - |old(quotes)|
      ensures quotes == if IsArray(file)
                        then old(quotes) + MergeFrom(KeySet(old(quotes)), ValidItems(file.value.items))
                        else old(quotes)
    {
      match file
      case None =>
        outcome := NoFile;
      case Some(doc) =>
        match doc
        case ArrayOf(items) =>
          var valid := ValidItems(items);
          if valid == [] {
            outcome := NoValidQuotes;
          } else {
            var addedCount := Merge(valid);
            outcome := Added(addedCount);
          }
        case _ =>
          outcome := InvalidFormat;
    }

    /** Picks the index of the quote to show next. The retry-until-different loop is
        represented by a choice of an index satisfying its exit condition. */
    method PickRandom(last: Option<int>) returns (shown: Option<nat>)
      ensures PickAllowed(|quotes|, last, shown)
      ensures |quotes| == 1 ==> shown == Some(0)
    {
      if |quotes| == 0 {
        shown := None;
      } else if last.None? {
        var idx: nat :| idx < |quotes|;
        shown := Some(idx);
      } else if |quotes| == 1 {
        shown := Some(0);
      } else {
        ghost var other: nat := if last.value == 0 then 1 else 0;
        assert other < |quotes| && other != last.value;
        var idx: nat :| idx < |quotes| && idx != last.value;
        shown := Some(idx);
      }
    }

    /** Start-up: loads the stored quotes, then shows the stored last index when it is still
        in range, and a random pick otherwise. */
    method Start(stored: Option<Document>, lastIdx: Option<int>) returns (shown: Option<nat>)
      modifies this
      ensures quotes == LoadedQuotes(old(quotes), stored)
      ensures Restorable(lastIdx, |quotes|) ==> shown == Some(lastIdx.value)
      ensures !Restorable(lastIdx, |quotes|) ==> PickAllowed(|quotes|, lastIdx, shown)
    {
      var _ := Load(stored);
      if Restorable(lastIdx, |quotes|) {
        shown := Some(lastIdx.value);
      } else {
        shown := PickRandom(lastIdx);
      }
    }
  }
}
