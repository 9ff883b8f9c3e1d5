/** The schedule page (`src/app/schedule/page.tsx`): adding an item from the form, and the list
    of items in date order. The date picker gives `YYYY-MM-DD` and the time picker `HH:MM` or
    nothing; turning the composed string into an instant is left to `Date`. */
module Schedule {
  import opened Wrappers
  import opened Seqs
  import Stress

  datatype Form = Form(title: string, date: string, time: string, kind: Stress.ItemKind, description: string,
                       isLoading: bool)

  /** The string handed to `new Date(...)` (line 42). */
  function DateString(date: string, time: string): (s: string)
    ensures time == "" ==> s == date
    ensures time != "" ==> |s| == |date| + 1 + |time| && s[..|date|] == date && s[|date|] == 'T'
  {
    if time != "" then date + "T" + time else date
  }

  /** Splits at the first `T`: the date part and what follows it. */
  function SplitAtT(s: string): (parts: (string, string))
    ensures 'T' !in s ==> parts == (s, "")
    ensures 'T' in s ==> s == parts.0 + "T" + parts.1 && 'T' !in parts.0
  {
    if s == [] then ("", "")
    else if s[0] == 'T' then ("", s[1..])
    else
      var rest := SplitAtT(s[1..]);
      assert s == [s[0]] + s[1..];
      ([s[0]] + rest.0, rest.1)
  }

  /** A picked date contains no `T`, so the date and the time can be read back from the string. */
  lemma DateStringRoundTrip(date: string, time: string)
    requires 'T' !in date
    ensures SplitAtT(DateString(date, time)) == (date, time)
  {
    if time != "" {
      var s := DateString(date, time);
      assert s == date + "T" + time;
      assert s[|date|] == 'T';
      assert 'T' in s;
      SplitAfterTFree(date, time);
    }
  }

  lemma {:induction false} SplitAfterTFree(date: string, rest: string)
    requires 'T' !in date
    ensures SplitAtT(date + "T" + rest) == (date, rest)
  {
    if date == [] {
      assert date + "T" + rest == "T" + rest;
    } else {
      assert (date + "T" + rest)[1..] == date[1..] + "T" + rest;
      SplitAfterTFree(date[1..], rest);
      assert [date[0]] + date[1..] == date;
    }
  }

  /** The record `addDoc` receives; the server timestamp is left out. */
  datatype ItemData = ItemData(title: string, dateString: string, kind: Stress.ItemKind, description: string,
                               userProfileId: string)

  /** `handleSubmit` (lines 34-67). Without a user, the store, a title or a date nothing happens.
      Otherwise the item is written (unless `addDoc` throws, `fails`); success clears title, date,
      time and description but keeps the kind, failure keeps every field, and loading ends
      either way. */
  function Submit(f: Form, uid: Option<string>, storeReady: bool, fails: bool): (r: (Option<ItemData>, Form))
    ensures uid.None? || !storeReady || f.title == "" || f.date == "" ==> r == (None, f)
    ensures r.0.Some? <==> uid.Some? && storeReady && f.title != "" && f.date != "" && !fails
    ensures r.0.Some? ==> (r.0.value == ItemData(f.title, DateString(f.date, f.time), f.kind, f.description, uid.value)
      && r.1 == Form("", "", "", f.kind, "", false))
    ensures uid.Some? && storeReady && f.title != "" && f.date != "" && fails ==> r.1 == f.(isLoading := false)
  {
    if uid.None? || !storeReady || f.title == "" || f.date == "" then (None, f)
    else if fails then (None, f.(isLoading := false))
    else (Some(ItemData(f.title, DateString(f.date, f.time), f.kind, f.description, uid.value)),
          Form("", "", "", f.kind, "", false))
  }

  /** A stored `date`: a `Date` (milliseconds) or a store `Timestamp` (whole seconds). */
  datatype StoredDate = AsDate(ms: int) | AsTimestamp(seconds: int)

  function Millis(d: StoredDate): int {
    match d
    case AsDate(ms) => ms
    case AsTimestamp(s) => s * 1000
  }

  datatype StoredItem = StoredItem(id: string, title: string, date: StoredDate, kind: Stress.ItemKind)

  function ItemMillis(it: StoredItem): int {
    Millis(it.date)
  }

  datatype ItemList = NoItems | Items(items: seq<StoredItem>)

  /** Lines 156-162: an empty or unloaded collection shows the empty state; otherwise every item,
      earliest first, items at the same instant in collection order. */
  function UpcomingItems(items: Option<seq<StoredItem>>): (v: ItemList)
    ensures v.NoItems? <==> items.None? || items.value == []
    ensures v.Items? ==> multiset(v.items) == multiset(items.value)
    ensures v.Items? ==> forall i, j | 0 <= i < j < |v.items| :: ItemMillis(v.items[i]) <= ItemMillis(v.items[j])
  {
    if items.None? || items.value == [] then NoItems
    else
      var sorted := SortBy(items.value, ItemMillis);
      assert SortedBy(sorted, ItemMillis);
      Items(sorted)
  }

  /** Items at the same instant `t` (in milliseconds, whichever way their date is stored) keep
      their collection order. */
  lemma UpcomingItemsStable(items: seq<StoredItem>, t: int)
    requires items != []
    ensures UpcomingItems(Some(items)).Items?
    ensures WithKey(UpcomingItems(Some(items)).items, ItemMillis, t) == WithKey(items, ItemMillis, t)
  {
    assert Some(items).value == items;
    assert UpcomingItems(Some(items)).items == SortBy(items, ItemMillis);
    SortStable(items, ItemMillis, t);
  }

  /** A date stored as a timestamp of `s` seconds is listed before a date stored as `ms`
      milliseconds when `s * 1000 < ms`: the two encodings are compared on one scale. */
  lemma TimestampBeforeDate(items: seq<StoredItem>, i: int, j: int)
    requires 0 <= i < |items| && 0 <= j < |items| && items != []
    requires items[i].date.AsTimestamp? && items[j].date.AsDate?
    requires items[i].date.seconds * 1000 < items[j].date.ms
    ensures var v := UpcomingItems(Some(items)).items;
      exists a, b | 0 <= a < b < |v| :: v[a] == items[i] && v[b] == items[j]
  {
    var v := UpcomingItems(Some(items)).items;
    assert multiset(v) == multiset(items);
    var a := IndexIn(v, items, i);
    var b := IndexIn(v, items, j);
    assert ItemMillis(v[a]) < ItemMillis(v[b]);
    assert a < b;
  }

  /** Where `items[i]` sits in a permutation `v` of `items`. */
  lemma IndexIn(v: seq<StoredItem>, items: seq<StoredItem>, i: int) returns (a: int)
    requires multiset(v) == multiset(items) && 0 <= i < |items|
    ensures 0 <= a < |v| && v[a] == items[i]
  {
    assert items[i] in multiset(items);
    a :| 0 <= a < |v| && v[a] == items[i];
  }
}
