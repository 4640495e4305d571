/** `filter_data`: thins the forecast list down to one entry per day, the
    first entry seen for each day key. */
module DailyFilter {
  import opened Forecast
  import opened Sequences

  /** The day key `dt_txt[0:-9]`: the timestamp with its last nine
      characters dropped. A slice past the start of a shorter string is
      empty in Python, so every timestamp of nine characters or fewer has
      key "". */
  function DayKey(dtTxt: string): (k: string)
    ensures k <= dtTxt
    ensures |k| == if |dtTxt| >= 9 then |dtTxt| - 9 else 0
  {
    if |dtTxt| >= 9 then dtTxt[..|dtTxt| - 9] else ""
  }

  /** For the feed's "YYYY-MM-DD HH:MM:SS" form, two timestamps share a day
      key exactly when their first ten characters (the date) agree. */
  lemma DayKeyOfTimestamp(a: string, b: string)
    requires |a| == 19 && |b| == 19
    ensures DayKey(a) == a[..10]
    ensures DayKey(a) == DayKey(b) <==> a[..10] == b[..10]
  {
  }

  /** A timestamp of nine characters or fewer has the empty key, so all
      such entries fall on one day. */
  lemma ShortTimestampHasEmptyKey(a: string)
    requires |a| <= 9
    ensures DayKey(a) == ""
  {
  }

  function Key(e: Entry): string
  {
    DayKey(e.dtTxt)
  }

  /** The day keys of the entries of `s`: the contents of `unique_dates`
      once `s` has been appended. */
  function KeysOf(s: seq<Entry>): set<string>
  {
    if s == [] then {} else KeysOf(s[..|s| - 1]) + {Key(s[|s| - 1])}
  }

  /** No two entries of `s` share a day key. */
  predicate AllKeysDistinct(s: seq<Entry>)
  {
    forall i, j :: 0 <= i < j < |s| ==> Key(s[i]) != Key(s[j])
  }

  /** Position `i` holds the first entry of its day in `xs`. */
  predicate IsFirstOfDay(xs: seq<Entry>, i: int)
  {
    0 <= i < |xs| && forall j :: 0 <= j < i ==> Key(xs[j]) != Key(xs[i])
  }

  ghost function FirstOfDayAt(xs: seq<Entry>): int -> bool
  {
    i => IsFirstOfDay(xs, i)
  }

  /** The positions of `xs` that hold the first entry of their day, in order. */
  ghost function FirstIndices(xs: seq<Entry>): seq<int>
  {
    Positions(|xs|, FirstOfDayAt(xs))
  }

  /** What the loop of `filter_data` leaves in `filtered_data`: each entry in
      turn is appended unless its day key is among those already kept. */
  function FirstPerDay(xs: seq<Entry>): (r: seq<Entry>)
    ensures |r| <= |xs|
  {
    if xs == [] then []
    else
      var kept := FirstPerDay(xs[..|xs| - 1]);
      if Key(xs[|xs| - 1]) in KeysOf(kept) then kept else kept + [xs[|xs| - 1]]
  }

  /** `filter_data`, with `data['list']` passed as the sequence itself. The
      set `unique_dates` always holds exactly the day keys of the entries
      kept so far. */
  method FilterData(data: seq<Entry>) returns (filteredData: seq<Entry>)
    ensures filteredData == FirstPerDay(data)
  {
    var uniqueDates: set<string> := {};
    filteredData := [];
    for i := 0 to |data|
      invariant filteredData == FirstPerDay(data[..i])
      invariant uniqueDates == KeysOf(filteredData)
    {
      var entry := data[i];
      var date := DayKey(entry.dtTxt);
      assert data[..i + 1][..i] == data[..i];
      if date !in uniqueDates {
        KeysOfSnoc(filteredData, entry);
        uniqueDates := uniqueDates + {date};
        filteredData := filteredData + [entry];
      }
    }
    assert data[..|data|] == data;
  }

  lemma KeysOfSnoc(s: seq<Entry>, e: Entry)
    ensures KeysOf(s + [e]) == KeysOf(s) + {Key(e)}
  {
    assert (s + [e])[..|s|] == s;
  }

  /** A key is among `KeysOf(s)` exactly when some entry of `s` has it. */
  lemma {:induction false} KeysOfMembership(s: seq<Entry>, k: string)
    ensures k in KeysOf(s) <==> exists i :: 0 <= i < |s| && Key(s[i]) == k
  {
    if s != [] {
      var n := |s| - 1;
      KeysOfMembership(s[..n], k);
      if k in KeysOf(s[..n]) {
        var i :| 0 <= i < n && Key(s[..n][i]) == k;
        assert Key(s[i]) == k;
      }
      if exists i :: 0 <= i < |s| && Key(s[i]) == k {
        var i :| 0 <= i < |s| && Key(s[i]) == k;
        if i < n {
          assert Key(s[..n][i]) == k;
        }
      }
    }
  }

  /** Every day key of the input survives: the kept entries cover exactly
      the days of the input. */
  lemma {:induction false} FirstPerDayKeepsEveryKey(xs: seq<Entry>)
    ensures KeysOf(FirstPerDay(xs)) == KeysOf(xs)
  {
    if xs != [] {
      var n := |xs| - 1;
      var kept := FirstPerDay(xs[..n]);
      FirstPerDayKeepsEveryKey(xs[..n]);
      if Key(xs[n]) !in KeysOf(kept) {
        KeysOfSnoc(kept, xs[n]);
      }
    }
  }

  /** Appending an entry whose day is new keeps the day keys distinct. */
  lemma SnocKeysDistinct(s: seq<Entry>, e: Entry)
    requires AllKeysDistinct(s) && Key(e) !in KeysOf(s)
    ensures AllKeysDistinct(s + [e])
  {
    KeysOfMembership(s, Key(e));
    var r := s + [e];
    forall i, j | 0 <= i < j < |r| ensures Key(r[i]) != Key(r[j]) {
      assert r[i] == s[i];
      if j < |s| {
        assert r[j] == s[j];
      }
    }
  }

  lemma PrefixKeysDistinct(xs: seq<Entry>, n: nat)
    requires n <= |xs| && AllKeysDistinct(xs)
    ensures AllKeysDistinct(xs[..n])
  {
    forall i, j | 0 <= i < j < n ensures Key(xs[..n][i]) != Key(xs[..n][j]) {
      assert xs[..n][i] == xs[i] && xs[..n][j] == xs[j];
    }
  }

  /** The last entry is the first of its day exactly when its key is not
      among those of the entries before it. */
  lemma LastIsFirstOfDay(xs: seq<Entry>)
    requires xs != []
    ensures IsFirstOfDay(xs, |xs| - 1) <==> Key(xs[|xs| - 1]) !in KeysOf(xs[..|xs| - 1])
  {
    var n := |xs| - 1;
    KeysOfMembership(xs[..n], Key(xs[n]));
    forall j | 0 <= j < n ensures xs[..n][j] == xs[j] {
    }
  }

  /** No two kept entries share a day key. */
  lemma {:induction false} FirstPerDayKeysDistinct(xs: seq<Entry>)
    ensures AllKeysDistinct(FirstPerDay(xs))
  {
    if xs != [] {
      var n := |xs| - 1;
      var kept := FirstPerDay(xs[..n]);
      FirstPerDayKeysDistinct(xs[..n]);
      if Key(xs[n]) !in KeysOf(kept) {
        SnocKeysDistinct(kept, xs[n]);
      }
    }
  }

  /** An input whose day keys are already distinct is returned unchanged. */
  lemma {:induction false} FirstPerDayOfDistinct(xs: seq<Entry>)
    requires AllKeysDistinct(xs)
    ensures FirstPerDay(xs) == xs
  {
    if xs != [] {
      var n := |xs| - 1;
      PrefixKeysDistinct(xs, n);
      FirstPerDayOfDistinct(xs[..n]);
      LastIsFirstOfDay(xs);
      assert IsFirstOfDay(xs, n);
      assert xs[..n] + [xs[n]] == xs;
    }
  }

  /** `filter_data` keeps every entry only when no two entries share a day. */
  lemma {:induction false} FirstPerDayShortens(xs: seq<Entry>)
    ensures |FirstPerDay(xs)| == |xs| ==> AllKeysDistinct(xs)
  {
    if xs != [] {
      var n := |xs| - 1;
      var kept := FirstPerDay(xs[..n]);
      FirstPerDayShortens(xs[..n]);
      if Key(xs[n]) !in KeysOf(kept) && |kept| == n {
        FirstPerDayKeepsEveryKey(xs[..n]);
        SnocKeysDistinct(xs[..n], xs[n]);
        assert xs[..n] + [xs[n]] == xs;
      }
    }
  }

  /** `filter_data` never lengthens the list, and keeps every entry exactly
      when no two entries share a day; empty input gives empty output. */
  lemma FirstPerDayLength(xs: seq<Entry>)
    ensures |FirstPerDay(xs)| <= |xs|
    ensures |FirstPerDay(xs)| == |xs| <==> AllKeysDistinct(xs)
    ensures xs == [] ==> FirstPerDay(xs) == []
  {
    FirstPerDayShortens(xs);
    if AllKeysDistinct(xs) {
      FirstPerDayOfDistinct(xs);
    }
  }

  /** Filtering a filtered list changes nothing. */
  lemma {:induction false} FirstPerDayIdempotent(xs: seq<Entry>)
    ensures FirstPerDay(FirstPerDay(xs)) == FirstPerDay(xs)
  {
    FirstPerDayKeysDistinct(xs);
    FirstPerDayOfDistinct(FirstPerDay(xs));
  }

  /** Whether a position is the first of its day depends only on the
      entries up to it. */
  lemma FirstOfDayInPrefix(xs: seq<Entry>, k: nat, i: int)
    requires 0 <= i < k <= |xs|
    ensures IsFirstOfDay(xs[..k], i) == FirstOfDayAt(xs)(i)
  {
    assert forall j :: 0 <= j <= i ==> xs[..k][j] == xs[j];
  }

  /** The kept entries are exactly the entries at the first position of each
      day, in input order: `FirstPerDay(xs)[a] == xs[FirstIndices(xs)[a]]`,
      where the positions increase and are precisely those of the first
      entry of a day. Stated for every prefix `xs[..k]`. */
  lemma {:induction false} FirstPerDayPrefix(xs: seq<Entry>, k: nat)
    requires k <= |xs|
    ensures |FirstPerDay(xs[..k])| == |Positions(k, FirstOfDayAt(xs))|
    ensures forall a :: 0 <= a < |Positions(k, FirstOfDayAt(xs))| ==>
              FirstPerDay(xs[..k])[a] == xs[Positions(k, FirstOfDayAt(xs))[a]]
  {
    if k > 0 {
      var n := k - 1;
      var p := xs[..k];
      assert p[..n] == xs[..n];
      FirstPerDayPrefix(xs, n);
      var kept := FirstPerDay(xs[..n]);
      var idx := Positions(n, FirstOfDayAt(xs));
      var r := FirstPerDay(p);
      var idx' := Positions(k, FirstOfDayAt(xs));
      FirstPerDayKeepsEveryKey(xs[..n]);
      LastIsFirstOfDay(p);
      FirstOfDayInPrefix(xs, k, n);
      PositionsSnoc(n, FirstOfDayAt(xs));
      if FirstOfDayAt(xs)(n) {
        assert r == kept + [xs[n]];
        assert idx' == idx + [n];
        forall a | 0 <= a < |idx'| ensures r[a] == xs[idx'[a]] {
          if a < |idx| {
            assert r[a] == kept[a] && idx'[a] == idx[a];
          }
        }
      } else {
        assert r == kept;
        assert idx' == idx;
      }
    }
  }

  /** The whole-list form of `FirstPerDayPrefix`: `filter_data` returns an
      order-preserving subsequence of its input that holds exactly the first
      entry of each day. */
  lemma FirstPerDayPicksFirstIndices(xs: seq<Entry>)
    ensures |FirstPerDay(xs)| == |FirstIndices(xs)|
    ensures forall a :: 0 <= a < |FirstIndices(xs)| ==> FirstPerDay(xs)[a] == xs[FirstIndices(xs)[a]]
    ensures forall a :: 0 <= a < |FirstIndices(xs)| ==> IsFirstOfDay(xs, FirstIndices(xs)[a])
    ensures forall i :: IsFirstOfDay(xs, i) ==> i in FirstIndices(xs)
  {
    FirstPerDayPrefix(xs, |xs|);
    assert xs[..|xs|] == xs;
  }
}
