/** The score server: a JSON file of submitted scores, a listing of the ten
    fastest, and the submission of a new score. The store is a value passed
    in and returned; times are JSON numbers, modelled as exact reals. */
module Leaderboard {
  import opened Wrappers

  /** One stored score: the player's name and the time in seconds. */
  datatype Score = Score(name: string, time: real)

  /** The score file as the server finds it: missing or not parseable, or
      holding the list written last. */
  datatype Store = Unreadable | Stored(scores: seq<Score>)

  /** The JSON type of one field of a request body. */
  datatype Value = Str(s: string) | Num(n: real) | Other

  /** A request body: none at all, or a JSON object with its `name` and
      `time` fields, each possibly missing. */
  datatype Body = NoBody | Fields(name: Option<Value>, time: Option<Value>)

  /** The answer to a submission: accepted and written, or rejected with
      status 400. */
  datatype Reply = Saved | Invalid

  /** The number of scores the listing returns. */
  const ListSize: nat := 10

  /** The stored scores; a file that cannot be read or parsed counts as no
      scores. */
  function ReadScores(f: Store): (r: seq<Score>)
    ensures f.Stored? ==> r == f.scores
    ensures f.Unreadable? ==> r == []
  {
    match f
    case Unreadable => []
    case Stored(xs) => xs
  }

  /** Ascending by time. */
  predicate Sorted(s: seq<Score>) {
    forall i, j | 0 <= i < j < |s| :: s[i].time <= s[j].time
  }

  /** The scores with time exactly `v`, in their order in `s`. */
  function Filter(s: seq<Score>, v: real): (r: seq<Score>)
    ensures |r| <= |s|
  {
    if |s| == 0 then []
    else (if s[0].time == v then [s[0]] else []) + Filter(s[1..], v)
  }

  /** The number of scores with time at most `v`. */
  function CountUpTo(s: seq<Score>, v: real): (n: nat)
    ensures n <= |s|
  {
    if |s| == 0 then 0
    else (if s[0].time <= v then 1 else 0) + CountUpTo(s[1..], v)
  }

  /** Inserts `x` into `t` in front of the first score slower than `x`. */
  function Insert(t: seq<Score>, x: Score): (r: seq<Score>)
    ensures |r| == |t| + 1
    ensures forall y :: y in r <==> y == x || y in t
    decreases |t|
  {
    if |t| == 0 then [x]
    else if t[0].time > x.time then [x] + t
    else [t[0]] + Insert(t[1..], x)
  }

  /** In a sorted list the scores at most `v` are exactly the first
      CountUpTo(t, v). */
  lemma {:induction false} CountSplits(t: seq<Score>, v: real)
    requires Sorted(t)
    ensures forall i | 0 <= i < |t| :: i < CountUpTo(t, v) <==> t[i].time <= v
    decreases |t|
  {
    if |t| > 0 {
      CountSplits(t[1..], v);
      forall i | 0 <= i < |t|
        ensures i < CountUpTo(t, v) <==> t[i].time <= v
      {
        if i > 0 {
          assert t[i] == t[1..][i - 1];
          if t[0].time > v {
            assert t[i].time >= t[0].time;
          }
        } else if t[0].time > v && |t| > 1 {
          assert t[1..][0].time >= t[0].time;
        }
      }
    }
  }

  /** Inserting into a sorted list puts `x` behind every score that is not
      slower, and in front of every slower one. */
  lemma {:induction false} InsertSplits(t: seq<Score>, x: Score)
    requires Sorted(t)
    ensures var c := CountUpTo(t, x.time);
      Insert(t, x) == t[..c] + [x] + t[c..]
    decreases |t|
  {
    if |t| > 0 {
      CountSplits(t, x.time);
      if t[0].time > x.time {
        assert CountUpTo(t, x.time) == 0;
      } else {
        InsertSplits(t[1..], x);
        assert t[1..][..CountUpTo(t, x.time) - 1] == t[1..CountUpTo(t, x.time)];
      }
    }
  }

  /** Where each score of the sorted list ends up after inserting `x`. */
  lemma InsertAt(t: seq<Score>, x: Score)
    requires Sorted(t)
    ensures var c := CountUpTo(t, x.time);
      var r := Insert(t, x);
      c < |r| && r[c] == x &&
      (forall k | 0 <= k < c :: r[k] == t[k] && t[k].time <= x.time) &&
      (forall k | c < k < |r| :: r[k] == t[k - 1] && t[k - 1].time > x.time)
  {
    InsertSplits(t, x);
    CountSplits(t, x.time);
  }

  /** Inserting into a sorted list keeps it sorted. */
  lemma InsertSorted(t: seq<Score>, x: Score)
    requires Sorted(t)
    ensures Sorted(Insert(t, x))
  {
    var c := CountUpTo(t, x.time);
    var r := Insert(t, x);
    InsertAt(t, x);
    forall i, j | 0 <= i < j < |r|
      ensures r[i].time <= r[j].time
    {
      if j < c || i > c {
        var i', j' := if i < c then i else i - 1, if j < c then j else j - 1;
        assert r[i] == t[i'] && r[j] == t[j'];
      }
    }
  }

  /** The order the listing uses: ascending time, scores with equal times
      in the order they were stored. Scores are inserted one by one, each
      behind the earlier ones it does not beat. */
  function Sort(s: seq<Score>): (r: seq<Score>)
    ensures |r| == |s|
    ensures forall y :: y in r <==> y in s
    decreases |s|
  {
    if |s| == 0 then [] else Insert(Sort(s[..|s| - 1]), s[|s| - 1])
  }

  /** The sorted list is ascending by time. */
  lemma {:induction false} SortSorted(s: seq<Score>)
    ensures Sorted(Sort(s))
    decreases |s|
  {
    if |s| > 0 {
      SortSorted(s[..|s| - 1]);
      InsertSorted(Sort(s[..|s| - 1]), s[|s| - 1]);
    }
  }

  /** Inserting adds exactly the one score. */
  lemma {:induction false} InsertPerm(t: seq<Score>, x: Score)
    ensures multiset(Insert(t, x)) == multiset(t) + multiset{x}
    decreases |t|
  {
    if |t| > 0 && t[0].time <= x.time {
      InsertPerm(t[1..], x);
      assert t == [t[0]] + t[1..];
    }
  }

  /** Sorting rearranges the stored scores without adding or dropping any. */
  lemma {:induction false} SortPerm(s: seq<Score>)
    ensures multiset(Sort(s)) == multiset(s)
    decreases |s|
  {
    if |s| > 0 {
      var init, x := s[..|s| - 1], s[|s| - 1];
      SortPerm(init);
      InsertPerm(Sort(init), x);
      LastSplit(s);
    }
  }

  /** A non-empty list is its front followed by its last score. */
  lemma LastSplit(s: seq<Score>)
    requires |s| > 0
    ensures multiset(s) == multiset(s[..|s| - 1]) + multiset{s[|s| - 1]}
  {
    assert s == s[..|s| - 1] + [s[|s| - 1]];
  }

  /** Filtering distributes over concatenation. */
  lemma {:induction false} FilterAppend(a: seq<Score>, b: seq<Score>, v: real)
    ensures Filter(a + b, v) == Filter(a, v) + Filter(b, v)
    decreases |a|
  {
    if |a| > 0 {
      FilterAppend(a[1..], b, v);
      assert (a + b)[1..] == a[1..] + b;
    } else {
      assert a + b == b;
    }
  }

  /** Counting distributes over concatenation. */
  lemma {:induction false} CountAppend(a: seq<Score>, b: seq<Score>, v: real)
    ensures CountUpTo(a + b, v) == CountUpTo(a, v) + CountUpTo(b, v)
    decreases |a|
  {
    if |a| > 0 {
      CountAppend(a[1..], b, v);
      assert (a + b)[1..] == a[1..] + b;
    } else {
      assert a + b == b;
    }
  }

  /** No score after position CountUpTo in a sorted list has time `x.time`
      or less, so inserting `x` there keeps equal times in arrival order:
      `x` comes after every earlier score of the same time. */
  lemma {:induction false} FilterInsert(t: seq<Score>, x: Score, v: real)
    requires Sorted(t)
    ensures Filter(Insert(t, x), v) == Filter(t, v) + (if x.time == v then [x] else [])
    decreases |t|
  {
    var c := CountUpTo(t, x.time);
    InsertSplits(t, x);
    assert t == t[..c] + t[c..];
    FilterAppend(t[..c] + [x], t[c..], v);
    FilterAppend(t[..c], [x], v);
    FilterAppend(t[..c], t[c..], v);
    if x.time == v {
      CountSplits(t, x.time);
      FilterNone(t[c..], v);
    }
  }

  /** A list whose scores are all slower than `v` has none of time `v`. */
  lemma {:induction false} FilterNone(t: seq<Score>, v: real)
    requires forall i | 0 <= i < |t| :: t[i].time > v
    ensures Filter(t, v) == []
    decreases |t|
  {
    if |t| > 0 {
      FilterNone(t[1..], v);
    }
  }

  /** The sort is stable: for every time, the scores with that time keep
      the order in which they were stored. */
  lemma {:induction false} SortStable(s: seq<Score>, v: real)
    ensures Filter(Sort(s), v) == Filter(s, v)
    decreases |s|
  {
    if |s| > 0 {
      var init := s[..|s| - 1];
      var x := s[|s| - 1];
      var tail := if x.time == v then [x] else [];
      calc {
        Filter(Sort(s), v);
      ==
        Filter(Insert(Sort(init), x), v);
      == { SortSorted(init); FilterInsert(Sort(init), x, v); }
        Filter(Sort(init), v) + tail;
      == { SortStable(init, v); }
        Filter(init, v) + tail;
      == { FilterAppend(init, [x], v); assert Filter([x], v) == tail; }
        Filter(init + [x], v);
      == { assert s == init + [x]; }
        Filter(s, v);
      }
    }
  }

  /** Sorting does not change how many scores are at most `v`. */
  lemma {:induction false} SortCount(s: seq<Score>, v: real)
    ensures CountUpTo(Sort(s), v) == CountUpTo(s, v)
    decreases |s|
  {
    if |s| > 0 {
      var init := s[..|s| - 1];
      var x := s[|s| - 1];
      var t := Sort(init);
      SortCount(init, v);
      SortSorted(init);
      var c := CountUpTo(t, x.time);
      InsertSplits(t, x);
      assert t == t[..c] + t[c..];
      CountAppend(t[..c] + [x], t[c..], v);
      CountAppend(t[..c], [x], v);
      CountAppend(t[..c], t[c..], v);
      assert s == init + [x];
      CountAppend(init, [x], v);
    }
  }

  /** A prefix keeps, for every time, a prefix of the scores with that time. */
  lemma FilterPrefix(s: seq<Score>, k: nat, v: real)
    requires k <= |s|
    ensures Filter(s[..k], v) <= Filter(s, v)
  {
    assert s == s[..k] + s[k..];
    FilterAppend(s[..k], s[k..], v);
  }

  /** The first `n` scores of a sorted list are the fastest: none of the
      scores left out beats a kept one. */
  lemma PrefixFastest(s: seq<Score>, n: nat)
    requires Sorted(s) && n <= |s|
    ensures forall x, e | x in s[..n] && e in multiset(s) - multiset(s[..n]) :: x.time <= e.time
  {
    assert s == s[..n] + s[n..];
    assert multiset(s) == multiset(s[..n]) + multiset(s[n..]);
    forall x, e | x in s[..n] && e in multiset(s) - multiset(s[..n])
      ensures x.time <= e.time
    {
      assert e in multiset(s[n..]);
      var i :| 0 <= i < n && s[..n][i] == x;
      var j :| 0 <= j < |s| - n && s[n..][j] == e;
      assert s[i] == x && s[n + j] == e;
    }
  }

  /** A prefix is a sub-multiset, and the whole list when it is all of it. */
  lemma PrefixPart(s: seq<Score>, n: nat)
    requires n <= |s|
    ensures multiset(s[..n]) <= multiset(s)
    ensures n == |s| ==> multiset(s[..n]) == multiset(s)
  {
    assert s == s[..n] + s[n..];
  }

  /** The listing: the stored scores sorted by time, at most the first ten. */
  function List(f: Store): (r: seq<Score>)
    ensures var stored := ReadScores(f);
      |r| == (if |stored| < ListSize then |stored| else ListSize) &&
      Sorted(r) && multiset(r) <= multiset(stored) &&
      (|stored| <= ListSize ==> multiset(r) == multiset(stored))
  {
    var stored := ReadScores(f);
    var sorted := Sort(stored);
    var n := if |sorted| < ListSize then |sorted| else ListSize;
    SortSorted(stored);
    SortPerm(stored);
    PrefixPart(sorted, n);
    sorted[..n]
  }

  /** The listing holds the fastest scores: no stored score left out of it
      beats a listed one. */
  lemma ListFastest(f: Store)
    ensures forall x, e | x in List(f) && e in multiset(ReadScores(f)) - multiset(List(f)) :: x.time <= e.time
  {
    var sorted := Sort(ReadScores(f));
    SortSorted(ReadScores(f));
    SortPerm(ReadScores(f));
    PrefixFastest(sorted, |List(f)|);
  }

  /** Listed scores of equal time appear in the order they were submitted,
      and a later one is listed only if every earlier one of that time is. */
  lemma ListStable(f: Store)
    ensures forall v :: Filter(List(f), v) <= Filter(ReadScores(f), v)
  {
    var s := ReadScores(f);
    forall v
      ensures Filter(List(f), v) <= Filter(s, v)
    {
      FilterPrefix(Sort(s), |List(f)|, v);
      SortStable(s, v);
    }
  }

  /** The score a body describes, if its name is a string and its time a number. */
  function Parse(b: Body): (r: Option<Score>)
    ensures r.Some? <==> b.Fields? && b.name.Some? && b.name.value.Str? && b.time.Some? && b.time.value.Num?
    ensures r.Some? ==> r.value == Score(b.name.value.s, b.time.value.n)
  {
    var fields := if b.NoBody? then Fields(None, None) else b;
    match (fields.name, fields.time)
    case (Some(Str(name)), Some(Num(time))) => Some(Score(name, time))
    case _ => None
  }

  /** A submission: rejected unless the body has a string name and a
      numeric time, otherwise the score is appended to the stored ones and
      the file rewritten. */
  function Submit(f: Store, b: Body): (r: (Reply, Store))
    ensures r.0 == Invalid <==> Parse(b).None?
    ensures r.0 == Invalid ==> r.1 == f
    ensures r.0 == Saved ==> r.1 == Stored(ReadScores(f) + [Parse(b).value])
  {
    match Parse(b)
    case None => (Invalid, f)
    case Some(x) => (Saved, Stored(ReadScores(f) + [x]))
  }

  /** A store that cannot be read holds, after an accepted submission,
      exactly the submitted score. */
  lemma SubmitToUnreadable(b: Body)
    requires Parse(b).Some?
    ensures Submit(Unreadable, b) == (Saved, Stored([Parse(b).value]))
  {
    assert [] + [Parse(b).value] == [Parse(b).value];
  }

  /** Sorting after appending one score inserts that score behind every
      stored score it does not beat. */
  lemma SortAppend(s: seq<Score>, x: Score)
    ensures var c := CountUpTo(s, x.time);
      c <= |Sort(s)| && Sort(s + [x]) == Sort(s)[..c] + [x] + Sort(s)[c..]
  {
    var t := s + [x];
    assert t[..|t| - 1] == s;
    SortSorted(s);
    InsertSplits(Sort(s), x);
    SortCount(s, x.time);
  }

  /** The listing is the first ten scores of the sorted store, or all of
      them when there are fewer. */
  lemma ListIsPrefix(f: Store)
    ensures var sorted := Sort(ReadScores(f));
      List(f) == sorted[..if |sorted| < ListSize then |sorted| else ListSize]
  {
  }

  /** After an accepted submission the new score is listed at the position
      equal to the number of stored scores it does not beat (ties go to the
      earlier ones), and everything before it is unchanged; if that number
      is ten or more, the listing is as before. */
  lemma SubmitThenList(f: Store, b: Body)
    requires Parse(b).Some?
    ensures var x := Parse(b).value;
      var before := Sort(ReadScores(f));
      var c := CountUpTo(ReadScores(f), x.time);
      var after := List(Submit(f, b).1);
      c <= |before| &&
      after == (before[..c] + [x] + before[c..])[..|after|] &&
      (c < ListSize ==> after[c] == x) &&
      (c >= ListSize ==> after == List(f))
  {
    var x := Parse(b).value;
    var stored := ReadScores(f);
    var g := Submit(f, b).1;
    assert ReadScores(g) == stored + [x];
    SortAppend(stored, x);
    ListIsPrefix(g);
    ListIsPrefix(f);
  }
}
