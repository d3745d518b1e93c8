/** `moods` and `countMoods`: the six moods the client offers and how many
    entries of a day carry each. */
module MoodUtils {
  import opened MoodModel

  /** Smiling, neutral, crying, angry, relieved and sleeping faces. */
  const Moods: seq<string> :=
    ["\U{1F60A}", "\U{1F610}", "\U{1F622}", "\U{1F620}", "\U{1F60C}", "\U{1F634}"]

  /** No mood is offered twice. */
  predicate Distinct(ms: seq<string>) {
    forall i, j :: 0 <= i < j < |ms| ==> ms[i] != ms[j]
  }

  lemma MoodsDistinct()
    ensures |Moods| == 6 && Distinct(Moods)
  {
  }

  /** `entries.filter(e => e.mood === mood).length`. */
  function Tally(entries: seq<Mood>, mood: string): (n: nat)
    ensures n <= |entries|
    ensures n == 0 <==> forall e :: e in entries ==> e.mood != mood
  {
    if entries == [] then 0
    else (if entries[0].mood == mood then 1 else 0) + Tally(entries[1..], mood)
  }

  /** The tally of two lists of entries together is the sum of their tallies. */
  lemma {:induction false} TallyAppend(a: seq<Mood>, b: seq<Mood>, mood: string)
    ensures Tally(a + b, mood) == Tally(a, mood) + Tally(b, mood)
  {
    if a != [] {
      assert (a + b)[1..] == a[1..] + b;
      TallyAppend(a[1..], b, mood);
    } else {
      assert a + b == b;
    }
  }

  /** The tallies of the moods in `ms`, added up. */
  function Sum(entries: seq<Mood>, ms: seq<string>): nat {
    if ms == [] then 0 else Tally(entries, ms[0]) + Sum(entries, ms[1..])
  }

  /** The number of entries whose mood is in `ms`. */
  function Known(entries: seq<Mood>, ms: seq<string>): (n: nat)
    ensures n <= |entries|
  {
    if entries == [] then 0
    else (if entries[0].mood in ms then 1 else 0) + Known(entries[1..], ms)
  }

  lemma {:induction false} SumCons(e: Mood, rest: seq<Mood>, ms: seq<string>)
    requires Distinct(ms)
    ensures Sum([e] + rest, ms) == Sum(rest, ms) + (if e.mood in ms then 1 else 0)
  {
    if ms != [] {
      assert ([e] + rest)[1..] == rest;
      assert Distinct(ms[1..]);
      SumCons(e, rest, ms[1..]);
      assert e.mood in ms <==> e.mood == ms[0] || e.mood in ms[1..];
      assert e.mood == ms[0] ==> e.mood !in ms[1..];
    }
  }

  /** Every entry is counted under its own mood only: the tallies of distinct
      moods add up to the number of entries whose mood is among them. */
  lemma {:induction false} SumIsKnown(entries: seq<Mood>, ms: seq<string>)
    requires Distinct(ms)
    ensures Sum(entries, ms) == Known(entries, ms)
  {
    if entries == [] {
      SumOfNothing(ms);
    } else {
      SumIsKnown(entries[1..], ms);
      SumCons(entries[0], entries[1..], ms);
      assert [entries[0]] + entries[1..] == entries;
    }
  }

  lemma {:induction false} SumOfNothing(ms: seq<string>)
    ensures Sum([], ms) == 0
  {
    if ms != [] {
      SumOfNothing(ms[1..]);
    }
  }

  /** When every entry carries one of the six moods, the counts add up to the
      number of entries. */
  lemma {:induction false} CountsAddUp(entries: seq<Mood>)
    requires forall e :: e in entries ==> e.mood in Moods
    ensures Sum(entries, Moods) == |entries|
  {
    SumIsKnown(entries, Moods);
    AllKnown(entries, Moods);
  }

  lemma {:induction false} AllKnown(entries: seq<Mood>, ms: seq<string>)
    requires forall e :: e in entries ==> e.mood in ms
    ensures Known(entries, ms) == |entries|
  {
    if entries != [] {
      assert entries[0] in entries;
      assert forall e :: e in entries[1..] ==> e in entries;
      AllKnown(entries[1..], ms);
    }
  }

  /** `entries.filter(e => e.mood === mood).length`, one entry at a time. */
  method CountOf(entries: seq<Mood>, mood: string) returns (n: nat)
    ensures n == Tally(entries, mood)
  {
    n := 0;
    var k := 0;
    while k < |entries|
      invariant 0 <= k <= |entries|
      invariant n == Tally(entries[..k], mood)
    {
      TallyAppend(entries[..k], [entries[k]], mood);
      assert entries[..k + 1] == entries[..k] + [entries[k]];
      if entries[k].mood == mood {
        n := n + 1;
      }
      k := k + 1;
    }
    assert entries[..k] == entries;
  }

  /** `countMoods`: one count per offered mood, each the number of the day's
      entries with that mood. */
  method CountMoods(entries: seq<Mood>) returns (counts: map<string, nat>)
    ensures counts.Keys == set m | m in Moods
    ensures forall m :: m in counts ==> counts[m] == Tally(entries, m)
  {
    counts := map[];
    var i := 0;
    while i < |Moods|
      invariant 0 <= i <= |Moods|
      invariant counts.Keys == set m | m in Moods[..i]
      invariant forall m :: m in counts ==> counts[m] == Tally(entries, m)
    {
      var mood := Moods[i];
      var n := CountOf(entries, mood);
      counts := counts[mood := n];
      assert Moods[..i + 1] == Moods[..i] + [mood];
      i := i + 1;
    }
    assert Moods[..i] == Moods;
  }
}
