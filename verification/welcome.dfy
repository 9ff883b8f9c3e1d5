/** The dashboard's welcome header (`welcome-header.tsx`): the greeting for the hour of day and
    the one-tap mood log. The hour comes from the local clock and is a parameter here. */
module Welcome {
  import opened Wrappers
  import opened Seqs

  datatype Greeting = GoodMorning | GoodAfternoon | GoodEvening {
    function Text(): string {
      match this
      case GoodMorning => "Good Morning"
      case GoodAfternoon => "Good Afternoon"
      case GoodEvening => "Good Evening"
    }

    /** Position in the day. */
    function Rank(): nat {
      match this
      case GoodMorning => 0
      case GoodAfternoon => 1
      case GoodEvening => 2
    }
  }

  /** `updateGreeting` (lines 21-27): before noon morning, until 17:00 afternoon, then evening. */
  function GreetingFor(hour: int): (g: Greeting)
    ensures g == GoodMorning <==> hour < 12
    ensures g == GoodAfternoon <==> 12 <= hour < 17
    ensures g == GoodEvening <==> 17 <= hour
  {
    if hour < 12 then GoodMorning
    else if hour < 17 then GoodAfternoon
    else GoodEvening
  }

  /** The greeting never goes back during a day. */
  lemma GreetingMonotone(h1: int, h2: int)
    requires h1 <= h2
    ensures GreetingFor(h1).Rank() <= GreetingFor(h2).Rank()
  {
  }

  /** The hour a greeting starts at. */
  function FirstHour(g: Greeting): nat {
    match g
    case GoodMorning => 0
    case GoodAfternoon => 12
    case GoodEvening => 17
  }

  /** Every greeting is used by some hour of the day, from its first hour on, and its text
      tells it apart from the others. */
  lemma GreetingsCoverDay()
    ensures forall g: Greeting :: FirstHour(g) < 24 && GreetingFor(FirstHour(g)) == g
    ensures forall g: Greeting, h | FirstHour(g) <= h < 24 :: GreetingFor(h).Rank() >= g.Rank()
    ensures forall g1: Greeting, g2: Greeting :: g1.Text() == g2.Text() ==> g1 == g2
  {
    assert "Good Morning"[5] == 'M' && "Good Afternoon"[5] == 'A' && "Good Evening"[5] == 'E';
  }

  /** A mood button (`moodOptions` in `src/lib/data.ts`); the emoji is left out. */
  datatype MoodOption = MoodOption(name: string, rating: int)

  const MoodOptions: seq<MoodOption> := [
    MoodOption("Happy", 9), MoodOption("Calm", 8), MoodOption("Motivated", 7),
    MoodOption("Sad", 3), MoodOption("Stressed", 2), MoodOption("Anxious", 1)
  ]

  function OptionRatings(opts: seq<MoodOption>): (rs: seq<int>)
    ensures |rs| == |opts|
    ensures forall i | 0 <= i < |rs| :: rs[i] == opts[i].rating
  {
    seq(|opts|, i requires 0 <= i < |opts| => opts[i].rating)
  }

  /** The buttons run from the best mood to the worst, every rating on the 1-10 scale the mood
      charts use, so each button is told apart by its rating as well as its label. */
  lemma MoodOptionsOrdered()
    ensures StrictlyDecreasing(OptionRatings(MoodOptions))
    ensures forall o | o in MoodOptions :: 1 <= o.rating <= 10
    ensures forall i, j | 0 <= i < j < |MoodOptions| :: MoodOptions[i].name != MoodOptions[j].name
  {
    var rs := OptionRatings(MoodOptions);
    assert rs == [9, 8, 7, 3, 2, 1];
    forall i, j | 0 <= i < j < |MoodOptions|
      ensures MoodOptions[i].name != MoodOptions[j].name
    {
      assert MoodOptions[i].rating != MoodOptions[j].rating;
      if MoodOptions[i].name == MoodOptions[j].name {
        NamesFollowRatings(i, j);
      }
    }
  }

  /** Two buttons share a name only if they share a rating. */
  lemma NamesFollowRatings(i: int, j: int)
    requires 0 <= i < |MoodOptions| && 0 <= j < |MoodOptions|
    requires MoodOptions[i].name == MoodOptions[j].name
    ensures MoodOptions[i].rating == MoodOptions[j].rating
  {
    var n := MoodOptions[i].name;
    assert |n| > 1;
    assert n[0] == MoodOptions[j].name[0] && n[1] == MoodOptions[j].name[1];
  }

  /** The record written for a selected mood; the server timestamp is left out. */
  datatype MoodLogData = MoodLogData(mood: string, rating: int, userProfileId: string)

  /** `handleMoodSelect` (lines 34-51): the tapped option becomes the selected one in every case;
      a log with exactly its label and rating is written only when a user and the store are
      there. */
  function SelectMood(opt: MoodOption, uid: Option<string>, storeReady: bool): (r: (MoodOption, Option<MoodLogData>))
    ensures r.0 == opt
    ensures r.1.Some? <==> uid.Some? && storeReady
    ensures r.1.Some? ==> r.1.value == MoodLogData(opt.name, opt.rating, uid.value)
  {
    if uid.Some? && storeReady then (opt, Some(MoodLogData(opt.name, opt.rating, uid.value)))
    else (opt, None)
  }

  /** A mood logged from the header is always on the charts' 1-10 scale. */
  lemma LoggedMoodOnScale(i: int, uid: string)
    requires 0 <= i < |MoodOptions|
    ensures var w := SelectMood(MoodOptions[i], Some(uid), true).1;
      w.Some? && 1 <= w.value.rating <= 10 && w.value.mood == MoodOptions[i].name
  {
    MoodOptionsOrdered();
    assert MoodOptions[i] in MoodOptions;
  }
}
