/** The goal page's grouping of goals by category (`goal-list.tsx` lines 25-43): a `reduce` into
    an object keyed by category, rendered with `Object.entries`, so groups appear in order of each
    category's first goal. */
module GoalList {
  import opened Seqs
  import opened Goals

  datatype CategoryGroup = CategoryGroup(category: string, goals: seq<Goal>)

  function Categories(goals: seq<Goal>): (cs: seq<string>)
    ensures |cs| == |goals| && forall i | 0 <= i < |goals| :: cs[i] == goals[i].category
  {
    seq(|goals|, i requires 0 <= i < |goals| => goals[i].category)
  }

  function Keys(groups: seq<CategoryGroup>): (ks: seq<string>)
    ensures |ks| == |groups| && forall i | 0 <= i < |groups| :: ks[i] == groups[i].category
  {
    seq(|groups|, i requires 0 <= i < |groups| => groups[i].category)
  }

  /** The goals of category c, in input order. */
  function InCategory(goals: seq<Goal>, c: string): seq<Goal> {
    if goals == [] then []
    else InCategory(goals[..|goals| - 1], c) + (if goals[|goals| - 1].category == c then [goals[|goals| - 1]] else [])
  }

  /** One step of the reduce: `(acc[goal.category] = acc[goal.category] || []).push(goal)`. */
  function AddToGroups(groups: seq<CategoryGroup>, g: Goal): (r: seq<CategoryGroup>)
    ensures |r| == |groups| || |r| == |groups| + 1
  {
    if groups == [] then [CategoryGroup(g.category, [g])]
    else if groups[0].category == g.category then [groups[0].(goals := groups[0].goals + [g])] + groups[1..]
    else [groups[0]] + AddToGroups(groups[1..], g)
  }

  /** `goalsByCategory`, in `Object.entries` order. */
  function GroupByCategory(goals: seq<Goal>): seq<CategoryGroup> {
    if goals == [] then [] else AddToGroups(GroupByCategory(goals[..|goals| - 1]), goals[|goals| - 1])
  }

  function TotalSize(groups: seq<CategoryGroup>): nat {
    if groups == [] then 0 else |groups[0].goals| + TotalSize(groups[1..])
  }

  lemma {:induction false} AddToGroupsKeys(groups: seq<CategoryGroup>, g: Goal)
    ensures Keys(AddToGroups(groups, g)) == if g.category in Keys(groups) then Keys(groups) else Keys(groups) + [g.category]
  {
    var r := AddToGroups(groups, g);
    var ks := Keys(groups);
    if groups == [] {
      assert Keys(r) == [g.category];
    } else if groups[0].category == g.category {
      assert Keys(r) == ks;
      assert ks[0] == g.category;
    } else {
      var tail := AddToGroups(groups[1..], g);
      AddToGroupsKeys(groups[1..], g);
      assert r == [groups[0]] + tail;
      assert Keys(r) == [groups[0].category] + Keys(tail);
      assert ks == [groups[0].category] + Keys(groups[1..]);
    }
  }

  /** The group at index i only gains the new goal, and only when it is that goal's category. */
  lemma {:induction false} AddToGroupsAt(groups: seq<CategoryGroup>, g: Goal, i: nat)
    requires NoDuplicates(Keys(groups)) && i < |groups|
    ensures i < |AddToGroups(groups, g)|
    ensures AddToGroups(groups, g)[i]
      == groups[i].(goals := groups[i].goals + (if groups[i].category == g.category then [g] else []))
  {
    var ks := Keys(groups);
    var r := AddToGroups(groups, g);
    if groups[0].category == g.category {
      assert r == [groups[0].(goals := groups[0].goals + [g])] + groups[1..];
      if i > 0 {
        assert ks[0] != ks[i];
      }
    } else if i > 0 {
      assert Keys(groups[1..]) == ks[1..];
      NoDuplicatesTail(ks);
      AddToGroupsAt(groups[1..], g, i - 1);
      assert r == [groups[0]] + AddToGroups(groups[1..], g);
    }
  }

  /** A goal of a new category opens a group at the end. */
  lemma {:induction false} AddToGroupsNew(groups: seq<CategoryGroup>, g: Goal)
    requires g.category !in Keys(groups)
    ensures |AddToGroups(groups, g)| == |groups| + 1
    ensures AddToGroups(groups, g)[|groups|] == CategoryGroup(g.category, [g])
  {
    if groups != [] {
      assert Keys(groups)[0] == groups[0].category;
      assert Keys(groups[1..]) == Keys(groups)[1..];
      AddToGroupsNew(groups[1..], g);
      assert AddToGroups(groups, g) == [groups[0]] + AddToGroups(groups[1..], g);
    }
  }

  lemma {:induction false} AddToGroupsSize(groups: seq<CategoryGroup>, g: Goal)
    ensures TotalSize(AddToGroups(groups, g)) == TotalSize(groups) + 1
  {
    if groups != [] {
      var r := AddToGroups(groups, g);
      assert r[1..] == if groups[0].category == g.category then groups[1..] else AddToGroups(groups[1..], g);
      if groups[0].category != g.category {
        AddToGroupsSize(groups[1..], g);
      }
    }
  }

  /** The group keys are the distinct categories in order of first occurrence. */
  lemma {:induction false} GroupKeys(goals: seq<Goal>)
    ensures Keys(GroupByCategory(goals)) == Dedupe(Categories(goals))
  {
    if goals != [] {
      var init := goals[..|goals| - 1];
      var g := goals[|goals| - 1];
      var prev := GroupByCategory(init);
      GroupKeys(init);
      AddToGroupsKeys(prev, g);
      var cs := Categories(goals);
      assert cs[..|goals| - 1] == Categories(init);
      assert cs[|goals| - 1] == g.category;
      DedupeSnoc(cs);
      assert GroupByCategory(goals) == AddToGroups(prev, g);
    }
  }

  /** Every group holds exactly the goals of its category, in input order. */
  lemma {:induction false} GroupContents(goals: seq<Goal>)
    ensures forall i | 0 <= i < |GroupByCategory(goals)| ::
      GroupByCategory(goals)[i].goals == InCategory(goals, GroupByCategory(goals)[i].category)
  {
    if goals != [] {
      var init := goals[..|goals| - 1];
      var g := goals[|goals| - 1];
      var prev := GroupByCategory(init);
      assert goals == init + [g];
      assert GroupByCategory(goals) == AddToGroups(prev, g);
      GroupContents(init);
      GroupKeys(init);
      forall i | 0 <= i < |AddToGroups(prev, g)|
        ensures AddToGroups(prev, g)[i].goals == InCategory(init + [g], AddToGroups(prev, g)[i].category)
      {
        GroupContentsStep(init, g, prev, i);
      }
    }
  }

  lemma GroupContentsStep(init: seq<Goal>, g: Goal, prev: seq<CategoryGroup>, i: int)
    requires forall k | 0 <= k < |prev| :: prev[k].goals == InCategory(init, prev[k].category)
    requires Keys(prev) == Dedupe(Categories(init))
    requires 0 <= i < |AddToGroups(prev, g)|
    ensures AddToGroups(prev, g)[i].goals == InCategory(init + [g], AddToGroups(prev, g)[i].category)
  {
    var gs := AddToGroups(prev, g);
    var c := gs[i].category;
    InCategorySnoc(init, g, c);
    AddToGroupsKeys(prev, g);
    if i < |prev| {
      AddToGroupsAt(prev, g, i);
    } else {
      assert Keys(gs) != Keys(prev);
      AddToGroupsNew(prev, g);
      InCategoryAbsent(init, g.category, prev);
    }
  }

  lemma InCategorySnoc(init: seq<Goal>, g: Goal, c: string)
    ensures InCategory(init + [g], c) == InCategory(init, c) + (if g.category == c then [g] else [])
  {
    assert (init + [g])[..|init|] == init;
  }

  lemma InCategoryAbsent(goals: seq<Goal>, c: string, groups: seq<CategoryGroup>)
    requires Keys(groups) == Dedupe(Categories(goals))
    requires c !in Keys(groups)
    ensures InCategory(goals, c) == []
  {
    forall i | 0 <= i < |goals|
      ensures goals[i].category != c
    {
      assert Categories(goals)[i] in Dedupe(Categories(goals));
    }
    InCategoryNone(goals, c);
  }

  lemma {:induction false} InCategoryNone(goals: seq<Goal>, c: string)
    requires forall i | 0 <= i < |goals| :: goals[i].category != c
    ensures InCategory(goals, c) == []
  {
    if goals != [] {
      InCategoryNone(goals[..|goals| - 1], c);
    }
  }

  /** No group is empty. */
  lemma {:induction false} GroupsNonEmpty(goals: seq<Goal>)
    ensures forall i | 0 <= i < |GroupByCategory(goals)| :: GroupByCategory(goals)[i].goals != []
  {
    if goals != [] {
      var init := goals[..|goals| - 1];
      var g := goals[|goals| - 1];
      var prev := GroupByCategory(init);
      var gs := GroupByCategory(goals);
      assert gs == AddToGroups(prev, g);
      GroupsNonEmpty(init);
      GroupKeys(init);
      AddToGroupsKeys(prev, g);
      forall i | 0 <= i < |gs|
        ensures gs[i].goals != []
      {
        if i < |prev| {
          AddToGroupsAt(prev, g, i);
          assert prev[i].goals != [];
        } else {
          assert Keys(gs) != Keys(prev);
          AddToGroupsNew(prev, g);
        }
      }
    }
  }

  /** Every goal lands in exactly one group: the group sizes add up to the number of goals. */
  lemma {:induction false} GroupSizesSum(goals: seq<Goal>)
    ensures TotalSize(GroupByCategory(goals)) == |goals|
  {
    if goals != [] {
      GroupSizesSum(goals[..|goals| - 1]);
      AddToGroupsSize(GroupByCategory(goals[..|goals| - 1]), goals[|goals| - 1]);
    }
  }

  datatype GoalListView = NoGoalsYet | Grouped(groups: seq<CategoryGroup>)

  /** Lines 30-43: the empty state for no goals, the groups otherwise. */
  function RenderGoalList(goals: seq<Goal>): (v: GoalListView)
    ensures v.NoGoalsYet? <==> goals == []
    ensures v.Grouped? ==> v.groups != [] && Keys(v.groups) == Dedupe(Categories(goals))
  {
    GroupKeys(goals);
    if goals == [] then NoGoalsYet else Grouped(GroupByCategory(goals))
  }
}
