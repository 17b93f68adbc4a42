/** The arithmetic behind the game-over panel's statistics table: players ordered by total
    points and then by nickname ignoring case, shared ranks for tied players, tiles placed
    per player, and clock times split into hours, minutes and seconds. */
module GameOverPanel {
  import opened Counting
  import opened Game

  /** A player as the panel sees it: registry index, nickname and total points. */
  datatype PlayerView = PlayerView(index: nat, nick: string, points: int)

  // ---------------------------------------------------------------------------
  // Nicknames compared ignoring case

  /** Case folding of one character, for the ASCII letters. */
  function FoldCase(c: char): char
  {
    if 'A' <= c <= 'Z' then (c as int + 32) as char else c
  }

  /** The two strings are equal once case is folded. */
  predicate EqualIgnoringCase(a: string, b: string)
  {
    |a| == |b| && forall k :: 0 <= k < |a| ==> FoldCase(a[k]) == FoldCase(b[k])
  }

  /** compareToIgnoreCase: the difference of the first pair of folded characters that
      differ, otherwise the difference of the lengths. */
  function CompareIgnoreCase(a: string, b: string): (r: int)
    ensures r == 0 <==> EqualIgnoringCase(a, b)
  {
    if |a| == 0 || |b| == 0 then |a| - |b|
    else if FoldCase(a[0]) != FoldCase(b[0]) then FoldCase(a[0]) as int - FoldCase(b[0]) as int
    else
      var r := CompareIgnoreCase(a[1..], b[1..]);
      assert EqualIgnoringCase(a[1..], b[1..]) ==> EqualIgnoringCase(a, b) by {
        if EqualIgnoringCase(a[1..], b[1..]) {
          forall k | 0 <= k < |a| ensures FoldCase(a[k]) == FoldCase(b[k]) {
            if k > 0 { assert a[k] == a[1..][k - 1] && b[k] == b[1..][k - 1]; }
          }
        }
      }
      assert EqualIgnoringCase(a, b) ==> EqualIgnoringCase(a[1..], b[1..]) by {
        if EqualIgnoringCase(a, b) {
          forall k | 0 <= k < |a| - 1 ensures FoldCase(a[1..][k]) == FoldCase(b[1..][k]) {
            assert a[1..][k] == a[k + 1] && b[1..][k] == b[k + 1];
          }
        }
      }
      r
  }

  /** When the folded strings first differ at position `k`, the comparison is the
      difference of the folded characters there: negative exactly when `a` has the
      smaller one. */
  lemma {:induction false} CompareIgnoreCaseFirstDifference(a: string, b: string, k: nat)
    requires k < |a| && k < |b|
    requires forall m :: 0 <= m < k ==> FoldCase(a[m]) == FoldCase(b[m])
    requires FoldCase(a[k]) != FoldCase(b[k])
    ensures CompareIgnoreCase(a, b) == FoldCase(a[k]) as int - FoldCase(b[k]) as int
  {
    if k > 0 {
      assert FoldCase(a[0]) == FoldCase(b[0]);
      forall m | 0 <= m < k - 1
        ensures FoldCase(a[1..][m]) == FoldCase(b[1..][m])
      {
        assert a[1..][m] == a[m + 1] && b[1..][m] == b[m + 1];
      }
      assert a[1..][k - 1] == a[k] && b[1..][k - 1] == b[k];
      CompareIgnoreCaseFirstDifference(a[1..], b[1..], k - 1);
    }
  }

  /** When one folded string is a prefix of the other, the comparison is the difference
      of the lengths: a proper prefix comes first. */
  lemma {:induction false} CompareIgnoreCasePrefix(a: string, b: string)
    requires forall m :: 0 <= m < |a| && m < |b| ==> FoldCase(a[m]) == FoldCase(b[m])
    ensures CompareIgnoreCase(a, b) == |a| - |b|
  {
    if |a| > 0 && |b| > 0 {
      assert FoldCase(a[0]) == FoldCase(b[0]);
      forall m | 0 <= m < |a| - 1 && m < |b| - 1
        ensures FoldCase(a[1..][m]) == FoldCase(b[1..][m])
      {
        assert a[1..][m] == a[m + 1] && b[1..][m] == b[m + 1];
      }
      CompareIgnoreCasePrefix(a[1..], b[1..]);
    }
  }

  /** Swapping the arguments negates the comparison. */
  lemma {:induction false} CompareIgnoreCaseAntisymmetric(a: string, b: string)
    ensures CompareIgnoreCase(b, a) == -CompareIgnoreCase(a, b)
  {
    if |a| > 0 && |b| > 0 && FoldCase(a[0]) == FoldCase(b[0]) {
      CompareIgnoreCaseAntisymmetric(a[1..], b[1..]);
    }
  }

  /** "Not after" is transitive. */
  lemma {:induction false} CompareIgnoreCaseTransitive(a: string, b: string, c: string)
    requires CompareIgnoreCase(a, b) <= 0 && CompareIgnoreCase(b, c) <= 0
    ensures CompareIgnoreCase(a, c) <= 0
  {
    if |a| > 0 && |b| > 0 && |c| > 0 &&
       FoldCase(a[0]) == FoldCase(b[0]) && FoldCase(b[0]) == FoldCase(c[0]) {
      CompareIgnoreCaseTransitive(a[1..], b[1..], c[1..]);
    }
  }

  // ---------------------------------------------------------------------------
  // The order of the panel's columns

  /** The comparator of getSortedPlayers: more points first, then nicknames ignoring case. */
  function ComparePlayers(p: PlayerView, q: PlayerView): (r: int)
    ensures p.points != q.points ==> (r < 0 <==> p.points > q.points) && r != 0
    ensures r == 0 <==> p.points == q.points && EqualIgnoringCase(p.nick, q.nick)
  {
    if p.points < q.points then 1
    else if p.points > q.points then -1
    else CompareIgnoreCase(p.nick, q.nick)
  }

  /** `p` may stand before `q` in the panel. */
  predicate InPanelOrder(p: PlayerView, q: PlayerView)
  {
    ComparePlayers(p, q) <= 0
  }

  /** Of any two players, one may stand before the other. */
  lemma ComparatorTotal(p: PlayerView, q: PlayerView)
    ensures InPanelOrder(p, q) || InPanelOrder(q, p)
    ensures !InPanelOrder(p, q) ==> ComparePlayers(q, p) < 0
  {
    CompareIgnoreCaseAntisymmetric(p.nick, q.nick);
  }

  /** The panel order is transitive. */
  lemma ComparatorTransitive(p: PlayerView, q: PlayerView, r: PlayerView)
    requires InPanelOrder(p, q) && InPanelOrder(q, r)
    ensures InPanelOrder(p, r)
  {
    if p.points == q.points == r.points {
      CompareIgnoreCaseTransitive(p.nick, q.nick, r.nick);
    }
  }

  /** Every player stands in panel order with every later one. */
  ghost predicate PanelSorted(s: seq<PlayerView>)
  {
    forall i, j :: 0 <= i < j < |s| ==> InPanelOrder(s[i], s[j])
  }

  /** `sorted` is `orig` rearranged: position k holds the player from position `from[k]`,
      no position is used twice, and players the comparator ranks equal keep the order
      they had in `orig` (the stability of the sort). */
  ghost predicate StableRearrangement(orig: seq<PlayerView>, sorted: seq<PlayerView>, from: seq<nat>)
  {
    |from| == |sorted| == |orig| &&
    (forall k :: 0 <= k < |sorted| ==> from[k] < |orig| && sorted[k] == orig[from[k]]) &&
    (forall k, l :: 0 <= k < l < |sorted| ==> from[k] != from[l]) &&
    (forall k, l :: 0 <= k < l < |sorted| && ComparePlayers(sorted[k], sorted[l]) == 0 ==> from[k] < from[l])
  }

  /** What the sort keeps from its first step to its last: position k holds the player
      from `from[k]`, and no position is used twice. */
  ghost predicate Tracks(orig: seq<PlayerView>, s: seq<PlayerView>, from: seq<nat>)
  {
    |from| == |s| == |orig| &&
    (forall k :: 0 <= k < |s| ==> from[k] < |orig| && s[k] == orig[from[k]]) &&
    (forall k, l :: 0 <= k < l < |s| ==> from[k] != from[l])
  }

  /** The state between two insertions: the first `i` players are sorted and stable and
      come from the first `i` positions, the rest are untouched. */
  ghost predicate Inserted(orig: seq<PlayerView>, s: seq<PlayerView>, from: seq<nat>, i: nat)
  {
    Tracks(orig, s, from) && i <= |s| &&
    (forall k, l :: 0 <= k < l < i ==> InPanelOrder(s[k], s[l])) &&
    (forall k :: 0 <= k < i ==> from[k] < i) &&
    (forall k :: i <= k < |s| ==> from[k] == k) &&
    (forall k, l :: 0 <= k < l < i && ComparePlayers(s[k], s[l]) == 0 ==> from[k] < from[l])
  }

  /** The state while the player from position `i` moves down and stands at `j`: every
      player it has passed comes strictly after it. */
  ghost predicate Inserting(orig: seq<PlayerView>, s: seq<PlayerView>, from: seq<nat>, i: nat, j: nat)
  {
    Tracks(orig, s, from) && j <= i < |s| &&
    (forall k, l :: 0 <= k < l <= i && k != j && l != j ==> InPanelOrder(s[k], s[l])) &&
    (forall l :: j < l <= i ==> ComparePlayers(s[j], s[l]) < 0) &&
    from[j] == i &&
    (forall k :: 0 <= k <= i && k != j ==> from[k] < i) &&
    (forall k :: i < k < |s| ==> from[k] == k) &&
    (forall k, l :: 0 <= k < l <= i && k != j && l != j && ComparePlayers(s[k], s[l]) == 0 ==> from[k] < from[l])
  }

  /** Before the outer loop: nothing inserted, every player where it started. */
  lemma NothingInserted(s: seq<PlayerView>)
    ensures Inserted(s, s, seq(|s|, k => k), 0)
  {
  }

  /** After the outer loop: every player inserted, so the array is sorted and stable. */
  lemma AllInserted(orig: seq<PlayerView>, s: seq<PlayerView>, from: seq<nat>)
    requires Inserted(orig, s, from, |s|)
    ensures PanelSorted(s) && StableRearrangement(orig, s, from)
  {
  }

  /** Entering the inner loop: the player at `i` starts its move down from `i`. */
  lemma StartInsert(orig: seq<PlayerView>, s: seq<PlayerView>, from: seq<nat>, i: nat)
    requires Inserted(orig, s, from, i) && i < |s|
    ensures Inserting(orig, s, from, i, i)
  {
  }

  /** One adjacent swap keeps the inserting state, one position further down. */
  lemma SwapStep(orig: seq<PlayerView>, s: seq<PlayerView>, from: seq<nat>, i: nat, j: nat)
    requires Inserting(orig, s, from, i, j) && 0 < j && !InPanelOrder(s[j - 1], s[j])
    ensures Inserting(orig, s[j - 1 := s[j]][j := s[j - 1]], from[j - 1 := from[j]][j := from[j - 1]], i, j - 1)
    ensures multiset(s[j - 1 := s[j]][j := s[j - 1]]) == multiset(s)
  {
    ComparatorTotal(s[j - 1], s[j]);
  }

  /** Once the player stands after one it may follow, the first `i + 1` are sorted. */
  lemma EndInsert(orig: seq<PlayerView>, s: seq<PlayerView>, from: seq<nat>, i: nat, j: nat)
    requires Inserting(orig, s, from, i, j) && (j == 0 || InPanelOrder(s[j - 1], s[j]))
    ensures Inserted(orig, s, from, i + 1)
  {
    forall k, l | 0 <= k < l <= i
      ensures InPanelOrder(s[k], s[l])
    {
      if l == j && k < j - 1 {
        ComparatorTransitive(s[k], s[j - 1], s[j]);
      }
    }
  }

  /** The sort of getSortedPlayers, in place: insertion by adjacent swaps, which moves a
      player only past players that come strictly after it, so the sort is stable like
      Collections.sort. `from` records where each player came from. */
  method SortPlayers(a: array<PlayerView>) returns (ghost from: seq<nat>)
    modifies a
    ensures PanelSorted(a[..])
    ensures multiset(a[..]) == multiset(old(a[..]))
    ensures StableRearrangement(old(a[..]), a[..], from)
  {
    ghost var orig := a[..];
    from := seq(a.Length, k => k);
    NothingInserted(orig);
    var i := 0;
    while i < a.Length
      invariant Inserted(orig, a[..], from, i)
      invariant multiset(a[..]) == multiset(orig)
    {
      StartInsert(orig, a[..], from, i);
      var j := i;
      while j > 0 && !InPanelOrder(a[j - 1], a[j])
        invariant Inserting(orig, a[..], from, i, j)
        invariant multiset(a[..]) == multiset(orig)
      {
        ghost var before := a[..];
        SwapStep(orig, before, from, i, j);
        a[j - 1], a[j] := a[j], a[j - 1];
        assert a[..] == before[j - 1 := before[j]][j := before[j - 1]];
        from := from[j - 1 := from[j]][j := from[j - 1]];
        j := j - 1;
      }
      EndInsert(orig, a[..], from, i, j);
      i := i + 1;
    }
    AllInserted(orig, a[..], from);
  }

  /** getSortedPlayers: the players, reordered by total points from highest to lowest,
      players with equal points by nickname ignoring case, and players the comparator
      ranks equal in their registry order. */
  method GetSortedPlayers(players: seq<PlayerView>) returns (sorted: seq<PlayerView>)
    ensures multiset(sorted) == multiset(players)
    ensures forall i, j :: 0 <= i < j < |sorted| ==> sorted[i].points >= sorted[j].points
    ensures forall i, j :: 0 <= i < j < |sorted| && sorted[i].points == sorted[j].points ==>
              CompareIgnoreCase(sorted[i].nick, sorted[j].nick) <= 0
    ensures PanelSorted(sorted)
    ensures exists from :: StableRearrangement(players, sorted, from)
  {
    var a := new PlayerView[|players|](k requires 0 <= k < |players| => players[k]);
    assert a[..] == players;
    ghost var from := SortPlayers(a);
    sorted := a[..];
  }

  // ---------------------------------------------------------------------------
  // Ranks

  /** A rank as shown: one place, or a range of places shared by tied players. */
  datatype Rank = Single(place: nat) | Shared(first: nat, last: nat)
  {
    /** The best place this rank covers. */
    function First(): nat
    {
      if Single? then place else first
    }

    /** The label: "n" for one place, "first - last" for a shared range. */
    function Text(): string
    {
      if Single? then Decimal(place) else Decimal(first) + " - " + Decimal(last)
    }
  }

  /** The character of decimal digit `d`. */
  function Digit(d: nat): (c: char)
    requires d < 10
    ensures '0' <= c <= '9' && DigitValue(c) == d
  {
    ('0' as int + d) as char
  }

  /** The value of a decimal digit character; other characters count as 0. */
  function DigitValue(c: char): nat
  {
    if '0' <= c <= '9' then c as int - '0' as int else 0
  }

  /** The number a string of decimal digits denotes, most significant digit first. */
  function DigitsValue(s: string): nat
  {
    if |s| == 0 then 0 else DigitsValue(s[..|s| - 1]) * 10 + DigitValue(s[|s| - 1])
  }

  predicate AllDigits(s: string)
  {
    forall k :: 0 <= k < |s| ==> '0' <= s[k] <= '9'
  }

  /** Java's decimal rendering of a non-negative int: at least one digit, no leading
      zero, and the digits denote `n`. */
  function Decimal(n: nat): (r: string)
    ensures |r| >= 1 && AllDigits(r)
    ensures |r| == 1 || r[0] != '0'
    ensures DigitsValue(r) == n
  {
    if n < 10 then [Digit(n)]
    else
      var r := Decimal(n / 10) + [Digit(n % 10)];
      assert r[..|r| - 1] == Decimal(n / 10);
      assert |Decimal(n / 10)| == 1 ==> DigitsValue(Decimal(n / 10)) == DigitValue(Decimal(n / 10)[0]) by {
        if |Decimal(n / 10)| == 1 {
          assert Decimal(n / 10)[..0] == [];
        }
      }
      r
  }

  /** The position of the first space in `t`, or |t| when there is none. */
  function FirstSpace(t: string): (i: nat)
    ensures i <= |t| && (i < |t| ==> t[i] == ' ')
  {
    if |t| == 0 || t[0] == ' ' then 0 else 1 + FirstSpace(t[1..])
  }

  /** Reads a rank label back: digits alone are one place, "first - last" a range. */
  function RankOfText(t: string): Rank
  {
    var i := FirstSpace(t);
    if i == |t| then Single(DigitsValue(t))
    else Shared(DigitsValue(t[..i]), if i + 3 <= |t| then DigitsValue(t[i + 3..]) else 0)
  }

  /** Digits followed by a space or by nothing: the first space is right after them. */
  lemma {:induction false} FirstSpaceAfterDigits(d: string, rest: string)
    requires AllDigits(d) && (|rest| == 0 || rest[0] == ' ')
    ensures FirstSpace(d + rest) == |d|
  {
    if |d| > 0 {
      assert (d + rest)[1..] == d[1..] + rest;
      FirstSpaceAfterDigits(d[1..], rest);
    } else {
      assert d + rest == rest;
    }
  }

  /** The label of a rank reads back as that rank, so different ranks never share a
      label. */
  lemma RankTextRoundTrip(r: Rank)
    ensures RankOfText(r.Text()) == r
  {
    if r.Single? {
      var d := Decimal(r.place);
      FirstSpaceAfterDigits(d, "");
      assert d + "" == d;
      assert RankOfText(d) == Single(DigitsValue(d));
    } else {
      SharedTextRoundTrip(Decimal(r.first), Decimal(r.last));
    }
  }

  lemma {:induction false} SharedTextRoundTrip(d: string, e: string)
    requires AllDigits(d)
    ensures RankOfText(d + " - " + e) == Shared(DigitsValue(d), DigitsValue(e))
  {
    var t := d + " - " + e;
    assert t == d + (" - " + e);
    FirstSpaceAfterDigits(d, " - " + e);
    assert t[..|d|] == d;
    assert t[|d| + 3..] == e;
  }

  /** The rank of the players at positions [s, e). */
  function RankFor(s: nat, e: nat): Rank
  {
    if e == s + 1 then Single(e) else Shared(s + 1, e)
  }

  /** [s, e) is the maximal run of players with player `i`'s points around position `i`. */
  predicate IsTieRun(players: seq<PlayerView>, i: nat, s: nat, e: nat)
  {
    s <= i < e <= |players| &&
    (forall k :: s <= k < e ==> players[k].points == players[i].points) &&
    (s == 0 || players[s - 1].points != players[i].points) &&
    (e == |players| || players[e].points != players[i].points)
  }

  /** A player's tie run is unique. */
  lemma TieRunUnique(players: seq<PlayerView>, i: nat, s: nat, e: nat, s': nat, e': nat)
    requires IsTieRun(players, i, s, e) && IsTieRun(players, i, s', e')
    ensures s == s' && e == e'
  {
  }

  /** The first position of player `i`'s tie run. */
  ghost function RunStart(players: seq<PlayerView>, i: nat): (r: nat)
    requires i < |players|
    ensures r <= i && (r == 0 || players[r - 1].points != players[i].points)
    ensures forall k :: r <= k <= i ==> players[k].points == players[i].points
    decreases i
  {
    if i > 0 && players[i - 1].points == players[i].points then RunStart(players, i - 1) else i
  }

  /** One past the last position of player `i`'s tie run. */
  ghost function RunEnd(players: seq<PlayerView>, i: nat): (r: nat)
    requires i < |players|
    ensures i < r <= |players| && (r == |players| || players[r].points != players[i].points)
    ensures forall k :: i <= k < r ==> players[k].points == players[i].points
    decreases |players| - i
  {
    if i + 1 < |players| && players[i + 1].points == players[i].points then RunEnd(players, i + 1) else i + 1
  }

  /** `rank` is the rank of the player at position `i`: the one given by its tie run,
      which exists and is unique. */
  ghost predicate RankedAt(players: seq<PlayerView>, i: nat, rank: Rank)
  {
    (exists s, e :: IsTieRun(players, i, s, e) && rank == RankFor(s, e)) &&
    (forall s, e :: IsTieRun(players, i, s, e) ==> rank == RankFor(s, e))
  }

  /** getRank: the place of player `i`, shared with the players tied with it. */
  method GetRank(players: seq<PlayerView>, i: nat) returns (rank: Rank)
    requires i < |players|
    ensures exists s, e :: IsTieRun(players, i, s, e) && rank == RankFor(s, e)
    ensures forall s, e :: IsTieRun(players, i, s, e) ==> rank == RankFor(s, e)
  {
    var start := i;
    var endrank := i + 1;
    while start > 0 && players[start - 1].points == players[start].points
      invariant 0 <= start <= i
      invariant forall k :: start <= k <= i ==> players[k].points == players[i].points
    {
      start := start - 1;
    }
    while endrank < |players|
      invariant i < endrank <= |players|
      invariant forall k :: start <= k < endrank ==> players[k].points == players[i].points
    {
      if players[endrank].points != players[start].points {
        break;
      }
      endrank := endrank + 1;
    }
    assert IsTieRun(players, i, start, endrank);
    rank := RankFor(start, endrank);
    forall s, e | IsTieRun(players, i, s, e)
      ensures rank == RankFor(s, e)
    {
      TieRunUnique(players, i, start, endrank, s, e);
    }
  }

  /** Players in the same tie run get the same rank. */
  lemma TiedPlayersShareRank(players: seq<PlayerView>, i: nat, j: nat, s: nat, e: nat)
    requires IsTieRun(players, i, s, e) && s <= j < e
    ensures IsTieRun(players, j, s, e)
  {
  }

  /** In a list ordered by points, a player with strictly more points than another has a
      strictly better first place. */
  lemma MorePointsBetterRank(players: seq<PlayerView>, i: nat, j: nat, si: nat, ei: nat, sj: nat, ej: nat)
    requires forall x, y :: 0 <= x < y < |players| ==> players[x].points >= players[y].points
    requires IsTieRun(players, i, si, ei) && IsTieRun(players, j, sj, ej)
    requires players[i].points > players[j].points
    ensures ei <= sj
    ensures RankFor(si, ei).First() < RankFor(sj, ej).First()
  {
    assert i < j;
    assert i < sj;
    assert players[sj].points == players[j].points;
    assert ei <= sj;
  }

  // ---------------------------------------------------------------------------
  // Tiles placed

  /** `e` is a tile placement triggered by player `player`. */
  predicate PlacedBy(e: PlayEvent, player: nat)
  {
    e.TilePlaced? && e.meta.triggeringPlayer == Some(player)
  }

  /** The number of tiles player `player` placed: the TilePlaced events of the log that
      the player triggered. */
  function TilesPlaced(events: seq<PlayEvent>, player: nat): (r: nat)
    ensures r == |set k: nat | k < |events| && PlacedBy(events[k], player)|
  {
    var p := (e: PlayEvent) => PlacedBy(e, player);
    CountIfIsPositionCount(events, p);
    assert Positions(events, p) == set k: nat | k < |events| && PlacedBy(events[k], player);
    CountIf(events, p)
  }

  /** Appending events other than tile placements leaves every player's count alone. */
  lemma TilesPlacedIgnoresOtherEvents(events: seq<PlayEvent>, extra: seq<PlayEvent>, player: nat)
    requires forall k :: 0 <= k < |extra| ==> !extra[k].TilePlaced?
    ensures TilesPlaced(events + extra, player) == TilesPlaced(events, player)
  {
    var p := (e: PlayEvent) => PlacedBy(e, player);
    CountIfAppend(events, extra, p);
    CountIfNoneMatch(extra, p);
  }

  // ---------------------------------------------------------------------------
  // Clock times

  /** A duration as hours, minutes and seconds. */
  datatype Hms = Hms(hours: nat, minutes: nat, seconds: nat)
  {
    function TotalSeconds(): nat
    {
      hours * 3600 + minutes * 60 + seconds
    }
  }

  /** The h:mm:ss split of a number of seconds. */
  function SplitSeconds(total: nat): (t: Hms)
    ensures t.minutes < 60 && t.seconds < 60
    ensures t.TotalSeconds() == total
  {
    var rest := total % 3600;
    Hms(total / 3600, rest / 60, rest % 60)
  }

  /** A split with minutes and seconds below 60 is the split of its total. */
  lemma SplitSecondsUnique(t: Hms)
    requires t.minutes < 60 && t.seconds < 60
    ensures SplitSeconds(t.TotalSeconds()) == t
  {
  }

  /** A clock reading in milliseconds, in whole seconds, split. */
  function ClockTime(millis: nat): (t: Hms)
    ensures t.minutes < 60 && t.seconds < 60
    ensures t.TotalSeconds() == millis / 1000
  {
    SplitSeconds(millis / 1000)
  }

  /** Every player has a clock. */
  predicate HasClocks(players: seq<PlayerView>, clocks: seq<nat>)
  {
    forall k :: 0 <= k < |players| ==> players[k].index < |clocks|
  }

  /** The sum of the players' clocks. */
  function ClockSum(players: seq<PlayerView>, clocks: seq<nat>): nat
    requires HasClocks(players, clocks)
  {
    if |players| == 0 then 0
    else ClockSum(players[..|players| - 1], clocks) + clocks[players[|players| - 1].index]
  }

  lemma {:induction false} ClockSumAppend(a: seq<PlayerView>, b: seq<PlayerView>, clocks: seq<nat>)
    requires HasClocks(a, clocks) && HasClocks(b, clocks)
    ensures HasClocks(a + b, clocks)
    ensures ClockSum(a + b, clocks) == ClockSum(a, clocks) + ClockSum(b, clocks)
  {
    assert HasClocks(a + b, clocks);
    if |b| > 0 {
      ClockSumAppend(a, b[..|b| - 1], clocks);
      assert (a + b)[..|a + b| - 1] == a + b[..|b| - 1];
    } else {
      assert a + b == a;
    }
  }

  /** Each player's clock is at most the sum. */
  lemma {:induction false} ClockSumBoundsEach(players: seq<PlayerView>, clocks: seq<nat>, k: nat)
    requires HasClocks(players, clocks) && k < |players|
    ensures clocks[players[k].index] <= ClockSum(players, clocks)
  {
    if k < |players| - 1 {
      ClockSumBoundsEach(players[..|players| - 1], clocks, k);
    }
  }

  /** A reordering of players who all have clocks still all have clocks. */
  lemma HasClocksPermutation(a: seq<PlayerView>, b: seq<PlayerView>, clocks: seq<nat>)
    requires HasClocks(a, clocks) && multiset(a) == multiset(b)
    ensures HasClocks(b, clocks)
  {
    forall k | 0 <= k < |b| ensures b[k].index < |clocks| {
      assert b[k] in multiset(a);
      var m :| 0 <= m < |a| && a[m] == b[k];
    }
  }

  /** Taking one player out of the list takes that player's clock out of the sum. */
  lemma ClockSumRemove(b: seq<PlayerView>, m: nat, clocks: seq<nat>)
    requires HasClocks(b, clocks) && m < |b|
    ensures HasClocks(b[..m] + b[m + 1..], clocks)
    ensures ClockSum(b, clocks) == ClockSum(b[..m] + b[m + 1..], clocks) + clocks[b[m].index]
  {
    assert b == b[..m] + [b[m]] + b[m + 1..];
    assert HasClocks(b[..m], clocks) && HasClocks(b[m + 1..], clocks) && HasClocks([b[m]], clocks);
    ClockSumAppend(b[..m], b[m + 1..], clocks);
    ClockSumAppend(b[..m] + [b[m]], b[m + 1..], clocks);
    ClockSumAppend(b[..m], [b[m]], clocks);
    assert ClockSum([b[m]], clocks) == clocks[b[m].index];
  }

  /** Removing the same element from two permutations of each other leaves permutations. */
  lemma RemoveMatching(a: seq<PlayerView>, b: seq<PlayerView>, m: nat)
    requires multiset(a) == multiset(b) && |a| > 0 && m < |b| && b[m] == a[|a| - 1]
    ensures multiset(a[..|a| - 1]) == multiset(b[..m] + b[m + 1..])
  {
    var x := b[m];
    assert a == a[..|a| - 1] + [x];
    assert b == b[..m] + [x] + b[m + 1..];
    assert multiset(a[..|a| - 1]) == multiset(a) - multiset{x};
    assert multiset(b[..m] + b[m + 1..]) == multiset(b) - multiset{x};
  }

  /** The sum does not depend on the order of the players. */
  lemma {:induction false} ClockSumPermutation(a: seq<PlayerView>, b: seq<PlayerView>, clocks: seq<nat>)
    requires HasClocks(a, clocks) && multiset(a) == multiset(b)
    ensures HasClocks(b, clocks)
    ensures ClockSum(a, clocks) == ClockSum(b, clocks)
  {
    HasClocksPermutation(a, b, clocks);
    if |a| > 0 {
      var x := a[|a| - 1];
      assert x in multiset(b);
      var m :| 0 <= m < |b| && b[m] == x;
      RemoveMatching(a, b, m);
      ClockSumRemove(b, m, clocks);
      ClockSumPermutation(a[..|a| - 1], b[..m] + b[m + 1..], clocks);
    } else {
      assert b == [];
    }
  }

  /** The fulltime loop: the game's total time is the sum of the players' clocks, and no
      player's clock exceeds it. */
  method FullTime(players: seq<PlayerView>, clocks: seq<nat>) returns (fulltime: nat)
    requires HasClocks(players, clocks)
    ensures fulltime == ClockSum(players, clocks)
    ensures forall k :: 0 <= k < |players| ==> clocks[players[k].index] <= fulltime
  {
    fulltime := 0;
    var i := 0;
    while i < |players|
      invariant 0 <= i <= |players|
      invariant HasClocks(players[..i], clocks)
      invariant fulltime == ClockSum(players[..i], clocks)
    {
      assert players[..i + 1][..i] == players[..i];
      fulltime := fulltime + clocks[players[i].index];
      i := i + 1;
    }
    assert players[..i] == players;
    forall k | 0 <= k < |players| ensures clocks[players[k].index] <= fulltime {
      ClockSumBoundsEach(players, clocks, k);
    }
  }

  // ---------------------------------------------------------------------------
  // The statistics table

  /** One column of the table: a player, the rank, the tiles placed, the player's time and
      the whole game's time. */
  datatype Column = Column(player: PlayerView, rank: Rank, tilesPlaced: nat, playerTime: Hms, gameTime: Hms)

  /** The statistics the panel shows: players in panel order, each with the rank of its
      tie run, the tiles it placed, its clock and the game's total clock as h:mm:ss. */
  method PointStats(players: seq<PlayerView>, clocks: seq<nat>, events: seq<PlayEvent>)
    returns (sorted: seq<PlayerView>, columns: seq<Column>)
    requires HasClocks(players, clocks)
    ensures multiset(sorted) == multiset(players) && PanelSorted(sorted)
    ensures exists from :: StableRearrangement(players, sorted, from)
    ensures HasClocks(sorted, clocks)
    ensures |columns| == |sorted|
    ensures forall x :: 0 <= x < |columns| ==> columns[x].player == sorted[x]
    ensures forall x :: 0 <= x < |columns| ==> RankedAt(sorted, x, columns[x].rank)
    ensures forall x :: 0 <= x < |columns| ==> columns[x].tilesPlaced == TilesPlaced(events, sorted[x].index)
    ensures forall x :: 0 <= x < |columns| ==>
              columns[x].playerTime.minutes < 60 && columns[x].playerTime.seconds < 60 &&
              columns[x].playerTime.TotalSeconds() == clocks[sorted[x].index] / 1000
    ensures forall x :: 0 <= x < |columns| ==>
              columns[x].gameTime.minutes < 60 && columns[x].gameTime.seconds < 60 &&
              columns[x].gameTime.TotalSeconds() == ClockSum(players, clocks) / 1000
    ensures forall x :: 0 <= x < |columns| ==>
              columns[x].playerTime.TotalSeconds() <= columns[x].gameTime.TotalSeconds()
  {
    sorted := GetSortedPlayers(players);
    ClockSumPermutation(players, sorted, clocks);
    var fulltime := FullTime(sorted, clocks);
    columns := BuildColumns(sorted, clocks, fulltime, events);
  }

  /** The loop that fills the table, one column per player in panel order. */
  method BuildColumns(sorted: seq<PlayerView>, clocks: seq<nat>, fulltime: nat, events: seq<PlayEvent>)
    returns (columns: seq<Column>)
    requires HasClocks(sorted, clocks)
    ensures |columns| == |sorted|
    ensures forall x :: 0 <= x < |columns| ==> columns[x].player == sorted[x]
    ensures forall x :: 0 <= x < |columns| ==> RankedAt(sorted, x, columns[x].rank)
    ensures forall x :: 0 <= x < |columns| ==> columns[x].tilesPlaced == TilesPlaced(events, sorted[x].index)
    ensures forall x :: 0 <= x < |columns| ==> columns[x].playerTime == ClockTime(clocks[sorted[x].index])
    ensures forall x :: 0 <= x < |columns| ==> columns[x].gameTime == ClockTime(fulltime)
  {
    columns := [];
    var x := 0;
    while x < |sorted|
      invariant 0 <= x <= |sorted|
      invariant |columns| == x
      invariant forall y :: 0 <= y < x ==> columns[y].player == sorted[y]
      invariant forall y, s, e :: 0 <= y < x && IsTieRun(sorted, y, s, e) ==> columns[y].rank == RankFor(s, e)
      invariant forall y :: 0 <= y < x ==> columns[y].tilesPlaced == TilesPlaced(events, sorted[y].index)
      invariant forall y :: 0 <= y < x ==> columns[y].playerTime == ClockTime(clocks[sorted[y].index])
      invariant forall y :: 0 <= y < x ==> columns[y].gameTime == ClockTime(fulltime)
    {
      var player := sorted[x];
      var rank := GetRank(sorted, x);
      var tilesPlaced := TilesPlaced(events, player.index);
      ghost var previous := columns;
      columns := columns + [Column(player, rank, tilesPlaced, ClockTime(clocks[player.index]), ClockTime(fulltime))];
      assert forall y :: 0 <= y < x ==> columns[y] == previous[y];
      x := x + 1;
    }
    forall y | 0 <= y < |columns|
      ensures RankedAt(sorted, y, columns[y].rank)
    {
      assert IsTieRun(sorted, y, RunStart(sorted, y), RunEnd(sorted, y));
    }
  }
}
