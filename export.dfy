/** Export: the store's serialization, read back as parsed items, and the download's file name. */
module Export {
  import opened Quotes
  import opened Merge

  /** The elements of the JSON array that serializing `qs` produces: one object per quote
      with string `text` and `category`. The same serialization is written to storage when saving. */
  function ExportItems(qs: seq<Quote>): (r: seq<Item>)
    ensures |r| == |qs|
    ensures forall i :: 0 <= i < |qs| ==> WellFormed(r[i]) && AsQuote(r[i]) == qs[i]
  {
    if qs == [] then []
    else [Truthy(Str(qs[0].text), Str(qs[0].category))] + ExportItems(qs[1..])
  }

  /** Saving and loading back restores the store exactly. */
  lemma ExportLoadRoundTrip(qs: seq<Quote>)
    ensures ValidItems(ExportItems(qs)) == qs
  {
    ValidItemsAllWellFormed(ExportItems(qs));
  }

  /** Importing an export into a store that already holds those quotes appends nothing. */
  lemma ExportImportAddsNothing(store: seq<Quote>, qs: seq<Quote>)
    requires forall q :: q in qs ==> q in store
    ensures MergeFrom(KeySet(store), ValidItems(ExportItems(qs))) == []
  {
    ExportLoadRoundTrip(qs);
    MergeFromEmptyIff(KeySet(store), qs);
  }

  /** Replaces every ':' and every 'T' of `s` by '-'. */
  function Dashed(s: string): (r: string)
    ensures |r| == |s|
    ensures ':' !in r && 'T' !in r
    ensures forall i :: 0 <= i < |s| && s[i] != ':' && s[i] != 'T' ==> r[i] == s[i]
    ensures forall i :: 0 <= i < |s| && (s[i] == ':' || s[i] == 'T') ==> r[i] == '-'
  {
    seq(|s|, i requires 0 <= i < |s| => if s[i] == ':' || s[i] == 'T' then '-' else s[i])
  }

  /** The download's name for a timestamp in ISO-8601 form: "quotes_", the timestamp cut to
      its first 19 characters with ':' and 'T' turned into '-', and ".json". */
  function ExportFileName(iso: string): (name: string)
    ensures |name| == 12 + (if |iso| < 19 then |iso| else 19)
    ensures name[..7] == "quotes_" && name[|name| - 5..] == ".json"
    ensures ':' !in name[7..|name| - 5] && 'T' !in name[7..|name| - 5]
    ensures forall i :: 0 <= i < |name| - 12 ==>
              name[7 + i] == (if iso[i] == ':' || iso[i] == 'T' then '-' else iso[i])
  {
    var stamp := Dashed(if |iso| < 19 then iso else iso[..19]);
    var name := "quotes_" + stamp + ".json";
    assert name[7..|name| - 5] == stamp;
    name
  }


  /** The name of a download made at 09:05:03.123 UTC on 14 October 2026. */
  lemma ExportFileNameExample()
    ensures ExportFileName("2026-10-14T09:05:03.123Z") == "quotes_2026-10-14-09-05-03.json"
  {
    var iso := "2026-10-14T09:05:03.123Z";
    assert iso[..19] == "2026-10-14T09:05:03";
    DashedStamp(iso[..19]);
  }

  lemma DashedStamp(cut: string)
    requires cut == "2026-10-14T09:05:03"
    ensures Dashed(cut) == "2026-10-14-09-05-03"
  {
  }
}
