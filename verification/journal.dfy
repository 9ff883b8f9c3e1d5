/** The journal page (`src/app/journal/page.tsx`): saving and analysing an entry, and the list of
    past entries. The sentiment model is a parameter: its result, or `None` when it fails. */
module Journal {
  import opened Wrappers
  import opened Text
  import opened Seqs

  /** `AnalyzeJournalSentimentOutput`. */
  datatype Sentiment = Sentiment(tone: string, emoji: string, summary: string)

  /** A stored entry; `createdAt` is `None` while the server timestamp is pending. */
  datatype JournalEntry = JournalEntry(id: string, content: string, createdAt: Option<int>,
                                       sentiment: Option<Sentiment>, userProfileId: string)

  /** The record `addDoc` receives; `createdAt` is set by the server. */
  datatype EntryData = EntryData(content: string, sentiment: Option<Sentiment>, userProfileId: string)

  /** The editor: the draft, the last analysis, and the busy flag. */
  datatype Editor = Editor(entry: string, sentiment: Option<Sentiment>, isLoading: bool)

  datatype Saved = SaveRejected | SavedEntry(data: EntryData)

  /** `handleSave` (lines 33-60). A blank draft, or no collection (no store or no user), is
      rejected and the editor is untouched; otherwise the draft as typed goes out with the
      current analysis and the user's id, and the draft and the analysis are cleared. */
  function Save(e: Editor, storeReady: bool, uid: Option<string>): (r: (Saved, Editor))
    ensures r.0.SaveRejected? <==> IsBlank(e.entry) || !storeReady || uid.None?
    ensures r.0.SaveRejected? ==> r.1 == e
    ensures r.0.SavedEntry? ==> (r.0.data == EntryData(e.entry, e.sentiment, uid.value)
      && r.1 == Editor("", None, e.isLoading))
  {
    if IsBlank(e.entry) || !storeReady || uid.None? then (SaveRejected, e)
    else (SavedEntry(EntryData(e.entry, e.sentiment, uid.value)), Editor("", None, e.isLoading))
  }

  /** `handleAnalyze` (lines 72-96): a blank draft is refused before any model call (the second
      component says whether the model was called); otherwise the old analysis is dropped and
      replaced by the model's, and the busy flag ends false. */
  function Analyze(e: Editor, result: Option<Sentiment>): (r: (Editor, bool))
    ensures IsBlank(e.entry) <==> !r.1
    ensures !r.1 ==> r.0 == e
    ensures r.1 ==> r.0 == Editor(e.entry, result, false)
  {
    if IsBlank(e.entry) then (e, false) else (Editor(e.entry, result, false), true)
  }

  function Dated(entries: seq<JournalEntry>): seq<JournalEntry> {
    Filter(entries, (e: JournalEntry) => e.createdAt.Some?)
  }

  /** The sort key: later entries get smaller keys, so ascending keys means newest first. */
  function Age(e: JournalEntry): int {
    -e.createdAt.GetOr(0)
  }

  ghost predicate NewestFirst(es: seq<JournalEntry>) {
    forall i, j | 0 <= i < j < |es| :: es[i].createdAt.GetOr(0) >= es[j].createdAt.GetOr(0)
  }

  /** `sortedEntries` (lines 98-104): the timestamped entries, newest first; a permutation of
      them. */
  function SortedEntries(saved: Option<seq<JournalEntry>>): (r: seq<JournalEntry>)
    ensures multiset(r) == multiset(Dated(saved.GetOr([])))
    ensures forall i | 0 <= i < |r| :: r[i].createdAt.Some?
    ensures NewestFirst(r)
  {
    var dated := Dated(saved.GetOr([]));
    var r := SortBy(dated, Age);
    AgeOrderIsNewestFirst(r);
    PermutationKeepsDated(dated, r);
    r
  }

  lemma AgeOrderIsNewestFirst(r: seq<JournalEntry>)
    requires SortedBy(r, Age)
    ensures NewestFirst(r)
  {
    forall i, j | 0 <= i < j < |r|
      ensures r[i].createdAt.GetOr(0) >= r[j].createdAt.GetOr(0)
    {
      assert Age(r[i]) <= Age(r[j]);
    }
  }

  lemma PermutationKeepsDated(dated: seq<JournalEntry>, r: seq<JournalEntry>)
    requires forall i | 0 <= i < |dated| :: dated[i].createdAt.Some?
    requires multiset(r) == multiset(dated)
    ensures forall i | 0 <= i < |r| :: r[i].createdAt.Some?
  {
    forall i | 0 <= i < |r|
      ensures r[i].createdAt.Some?
    {
      assert r[i] in multiset(dated);
    }
  }

  /** Entries written at the same instant keep their collection order (`k` is minus that
      instant). */
  lemma SameInstantKeepsOrder(saved: seq<JournalEntry>, k: int)
    ensures WithKey(SortedEntries(Some(saved)), Age, k) == WithKey(Dated(saved), Age, k)
  {
    var dated := Dated(saved);
    var sorted := SortedEntries(Some(saved));
    assert Some(saved).GetOr([]) == saved;
    assert sorted == SortBy(dated, Age);
    SortStable(dated, Age, k);
  }

  /** An entry drops out of the list exactly when it has no timestamp. */
  lemma ListedIffDated(saved: seq<JournalEntry>, i: int)
    requires 0 <= i < |saved|
    ensures saved[i] in SortedEntries(Some(saved)) <==> saved[i].createdAt.Some?
  {
    var r := SortedEntries(Some(saved));
    if saved[i].createdAt.Some? {
      assert saved[i] in Dated(saved);
      assert saved[i] in multiset(r);
    }
  }
}
