/** The King and Robber Baron capability: the KING token goes to the player who
    completes a city larger than every city completed in an earlier turn, the ROBBER token
    to the player who completes a road longer than every road completed in an earlier
    turn, and at the end of the game each holder scores one point per completed city
    (resp. road), plus one for KING when the Count capability is installed. */
module KingAndRobberBaronCapability {
  import opened Counting
  import opened Game

  /** The feature kind an award is given for. */
  function AwardKind(a: BiggestFeatureAward): FeatureKind
  {
    if a == King then FeatureKind.City else FeatureKind.Road
  }

  /** The point category in which an award scores at the end of the game. */
  function AwardCategory(a: BiggestFeatureAward): PointCategory
  {
    if a == King then BiggestCity else LongestRoad
  }

  /** A feature counted by the historical maximum: of the kind, completed, not excluded. */
  predicate Eligible(f: Feature, kind: FeatureKind, exclude: set<Feature>)
  {
    f.kind == kind && f !in exclude && f.completed
  }

  /** The largest size among the eligible features of `fs`, 0 when there is none. */
  function LargestEligible(fs: seq<Feature>, kind: FeatureKind, exclude: set<Feature>): (r: nat)
    ensures forall k :: 0 <= k < |fs| && Eligible(fs[k], kind, exclude) ==> fs[k].size <= r
    ensures r == 0 || exists k :: 0 <= k < |fs| && Eligible(fs[k], kind, exclude) && fs[k].size == r
  {
    if |fs| == 0 then 0
    else
      var rest := LargestEligible(fs[..|fs| - 1], kind, exclude);
      var last := fs[|fs| - 1];
      if Eligible(last, kind, exclude) && last.size > rest then last.size else rest
  }

  /** getMaxSize: the size of the largest completed feature of `kind` on the board that is
      not in `exclude`, or 0 when there is none. */
  function GetMaxSize(state: GameState, kind: FeatureKind, exclude: set<Feature>): (r: nat)
    ensures forall f :: f in state.features && Eligible(f, kind, exclude) ==> f.size <= r
    ensures r == 0 || exists f :: f in state.features && Eligible(f, kind, exclude) && f.size == r
  {
    LargestEligible(state.features, kind, exclude)
  }

  /** getBiggestCitySize (memoized getMaxSize over cities, nothing excluded). */
  function GetBiggestCitySize(state: GameState): (r: nat)
    ensures forall f :: f in state.features && f.kind == FeatureKind.City && f.completed ==> f.size <= r
    ensures r == 0 || exists f :: f in state.features && f.kind == FeatureKind.City && f.completed && f.size == r
  {
    GetMaxSize(state, FeatureKind.City, {})
  }

  /** getLongestRoadSize (memoized getMaxSize over roads, nothing excluded). */
  function GetLongestRoadSize(state: GameState): (r: nat)
    ensures forall f :: f in state.features && f.kind == FeatureKind.Road && f.completed ==> f.size <= r
    ensures r == 0 || exists f :: f in state.features && f.kind == FeatureKind.Road && f.completed && f.size == r
  {
    GetMaxSize(state, FeatureKind.Road, {})
  }

  /** The positions of the board's feature list holding a completed feature of `kind`. */
  function CompletedPositions(fs: seq<Feature>, kind: FeatureKind): set<nat>
  {
    set k: nat | k < |fs| && fs[k].kind == kind && fs[k].completed
  }

  /** The number of completed features of `kind` on the board. */
  function CountCompleted(fs: seq<Feature>, kind: FeatureKind): (r: nat)
    ensures r == |CompletedPositions(fs, kind)|
  {
    var p := (f: Feature) => f.kind == kind && f.completed;
    CountIfIsPositionCount(fs, p);
    assert Positions(fs, p) == CompletedPositions(fs, kind);
    CountIf(fs, p)
  }

  /** countCompletedCities: the completed cities, plus one when the Count capability is
      installed. */
  function CountCompletedCities(state: GameState): (r: nat)
    ensures Count in state.capabilities ==> r == |CompletedPositions(state.features, FeatureKind.City)| + 1
    ensures Count !in state.capabilities ==> r == |CompletedPositions(state.features, FeatureKind.City)|
  {
    var count := CountCompleted(state.features, FeatureKind.City);
    if Count in state.capabilities then count + 1 else count
  }

  /** countCompletedRoads: the completed roads, with no adjustment. */
  function CountCompletedRoads(state: GameState): (r: nat)
    ensures r == |CompletedPositions(state.features, FeatureKind.Road)|
  {
    CountCompleted(state.features, FeatureKind.Road)
  }

  /** The points an award holder scores at the end of the game. */
  function AwardPoints(state: GameState, a: BiggestFeatureAward): nat
  {
    if a == King then CountCompletedCities(state) else CountCompletedRoads(state)
  }

  /** `f` is of `kind` and strictly larger than `max`. */
  predicate Beats(f: Feature, kind: FeatureKind, max: nat)
  {
    f.kind == kind && f.size > max
  }

  /** The historical maximum for an award's kind: this turn's features excluded. */
  function HistoricalMax(state: GameState, completed: set<Feature>, a: BiggestFeatureAward): nat
  {
    GetMaxSize(state, AwardKind(a), completed)
  }

  /** Some feature completed this turn beats the historical maximum, so the award moves. */
  predicate Transfers(state: GameState, completed: set<Feature>, a: BiggestFeatureAward)
  {
    exists f :: f in completed && Beats(f, AwardKind(a), HistoricalMax(state, completed, a))
  }

  /** The event announcing that the turn player received award `a`, caused by a feature
      completed this turn that beats the historical maximum. */
  predicate IsAwardEvent(e: PlayEvent, state: GameState, completed: set<Feature>, a: BiggestFeatureAward)
  {
    e.TokenReceived? && e.meta == CreateWithActivePlayer(state) && e.receiver == state.turnPlayer &&
    e.token == Award(a) && e.count == 1 && e.source.Some? && e.source.value in completed &&
    Beats(e.source.value, AwardKind(a), HistoricalMax(state, completed, a))
  }

  /** The indices of the players holding award `a`. */
  function Holders(ps: seq<PlayerRecord>, a: BiggestFeatureAward): set<nat>
  {
    set j: nat | j < |ps| && TokenCount(ps[j], Award(a)) > 0
  }

  /** The award counts of `after`: 1 for `holder` and 0 for everyone else when `moved`,
      otherwise those of `before`. */
  predicate AwardCounts(before: seq<PlayerRecord>, after: seq<PlayerRecord>, a: BiggestFeatureAward, moved: bool, holder: nat)
    requires |before| == |after|
  {
    forall j :: 0 <= j < |after| ==>
      TokenCount(after[j], Award(a)) == if moved then (if j == holder then 1 else 0) else TokenCount(before[j], Award(a))
  }

  /** `after` differs from `before` at most in the given award's counts. */
  ghost predicate OnlyAwardChanged(before: seq<PlayerRecord>, after: seq<PlayerRecord>, a: BiggestFeatureAward)
  {
    |after| == |before| &&
    (forall j, t :: 0 <= j < |after| && t != Award(a) ==> TokenCount(after[j], t) == TokenCount(before[j], t)) &&
    (forall j :: 0 <= j < |after| ==> after[j].nick == before[j].nick && after[j].points == before[j].points)
  }

  /** The loop of setTokenCount calls: every player's count of award `a` is overwritten,
      1 for `holder` and 0 for everyone else. */
  method AssignAward(ps: seq<PlayerRecord>, a: BiggestFeatureAward, holder: nat) returns (r: seq<PlayerRecord>)
    ensures |r| == |ps|
    ensures AwardCounts(ps, r, a, true, holder)
    ensures OnlyAwardChanged(ps, r, a)
  {
    r := ps;
    var i := 0;
    while i < |r|
      invariant 0 <= i <= |r| == |ps|
      invariant forall j :: 0 <= j < i ==> TokenCount(r[j], Award(a)) == if j == holder then 1 else 0
      invariant forall j :: i <= j < |r| ==> TokenCount(r[j], Award(a)) == TokenCount(ps[j], Award(a))
      invariant OnlyAwardChanged(ps, r, a)
    {
      r := SetTokenCount(r, i, Award(a), if i == holder then 1 else 0);
      i := i + 1;
    }
  }

  /** The loop of onTurnScoring over this turn's completed features: it remembers a city and a
      road, if any, that are larger than the historical maximum of their kind. Which
      one is remembered when several qualify depends on the iteration order of the
      completed-feature map, so the choice here is left open. */
  method FindRecordFeatures(state: GameState, completed: set<Feature>)
    returns (biggestCityCompleted: Option<Feature>, longestRoadCompleted: Option<Feature>)
    ensures biggestCityCompleted.Some? <==> Transfers(state, completed, King)
    ensures biggestCityCompleted.Some? ==>
              biggestCityCompleted.value in completed &&
              Beats(biggestCityCompleted.value, FeatureKind.City, HistoricalMax(state, completed, King))
    ensures longestRoadCompleted.Some? <==> Transfers(state, completed, Robber)
    ensures longestRoadCompleted.Some? ==>
              longestRoadCompleted.value in completed &&
              Beats(longestRoadCompleted.value, FeatureKind.Road, HistoricalMax(state, completed, Robber))
  {
    var maxCitySize := GetMaxSize(state, FeatureKind.City, completed);
    var maxRoadSize := GetMaxSize(state, FeatureKind.Road, completed);
    biggestCityCompleted := None;
    longestRoadCompleted := None;

    var remaining := completed;
    while remaining != {}
      invariant remaining <= completed
      invariant biggestCityCompleted.Some? ==>
                  biggestCityCompleted.value in completed && Beats(biggestCityCompleted.value, FeatureKind.City, maxCitySize)
      invariant biggestCityCompleted.None? ==>
                  forall f :: f in completed - remaining ==> !Beats(f, FeatureKind.City, maxCitySize)
      invariant longestRoadCompleted.Some? ==>
                  longestRoadCompleted.value in completed && Beats(longestRoadCompleted.value, FeatureKind.Road, maxRoadSize)
      invariant longestRoadCompleted.None? ==>
                  forall f :: f in completed - remaining ==> !Beats(f, FeatureKind.Road, maxRoadSize)
      decreases remaining
    {
      var feature :| feature in remaining;
      if feature.kind == FeatureKind.City && feature.size > maxCitySize {
        biggestCityCompleted := Some(feature);
      }
      if feature.kind == FeatureKind.Road && feature.size > maxRoadSize {
        longestRoadCompleted := Some(feature);
      }
      remaining := remaining - {feature};
    }
  }

  /** onTurnScoring: for each award whose kind had a feature completed this turn that is
      larger than every completed feature of that kind not completed this turn, the turn
      player becomes the only holder and one TokenReceived event is appended (KING first). */
  method OnTurnScoring(state: GameState, completed: set<Feature>) returns (r: GameState)
    ensures r == state.(players := r.players, events := r.events)
    ensures |r.players| == |state.players|
    ensures AwardCounts(state.players, r.players, King, Transfers(state, completed, King), state.turnPlayer)
    ensures AwardCounts(state.players, r.players, Robber, Transfers(state, completed, Robber), state.turnPlayer)
    ensures forall j, name :: 0 <= j < |r.players| ==>
              TokenCount(r.players[j], OtherToken(name)) == TokenCount(state.players[j], OtherToken(name))
    ensures forall j :: 0 <= j < |r.players| ==>
              r.players[j].nick == state.players[j].nick && r.players[j].points == state.players[j].points
    ensures var n := |state.events|;
            var k := if Transfers(state, completed, King) then 1 else 0;
            var b := if Transfers(state, completed, Robber) then 1 else 0;
            |r.events| == n + k + b && r.events[..n] == state.events &&
            (k == 1 ==> IsAwardEvent(r.events[n], state, completed, King)) &&
            (b == 1 ==> IsAwardEvent(r.events[n + k], state, completed, Robber))
    ensures forall a :: Transfers(state, completed, a) && state.turnPlayer < |state.players| ==>
              Holders(r.players, a) == {state.turnPlayer}
    ensures forall a :: !Transfers(state, completed, a) ==> Holders(r.players, a) == Holders(state.players, a)
    ensures !Transfers(state, completed, King) && !Transfers(state, completed, Robber) ==> r == state
  {
    var biggestCityCompleted, longestRoadCompleted := FindRecordFeatures(state, completed);

    var turnPlayer := state.turnPlayer;
    var ps := state.players;
    var s := state;
    if biggestCityCompleted.Some? {
      ps := AssignAward(ps, King, turnPlayer);
      var ev := TokenReceived(CreateWithActivePlayer(s), turnPlayer, Award(King), 1, biggestCityCompleted);
      s := AppendEvent(s, ev);
    }
    if longestRoadCompleted.Some? {
      ps := AssignAward(ps, Robber, turnPlayer);
      var ev := TokenReceived(CreateWithActivePlayer(s), turnPlayer, Award(Robber), 1, longestRoadCompleted);
      s := AppendEvent(s, ev);
    }
    r := s.(players := ps);

    forall a | Transfers(state, completed, a) && turnPlayer < |state.players|
      ensures Holders(r.players, a) == {turnPlayer}
    {
      assert turnPlayer in Holders(r.players, a);
    }
  }

  /** The points of `after` are those of `before`, plus the award points in BIGGEST_CITY
      for a KING holder and in LONGEST_ROAD for a ROBBER holder. */
  ghost predicate FinalScored(state: GameState, after: seq<PlayerRecord>)
  {
    |after| == |state.players| &&
    forall j :: 0 <= j < |after| ==>
      after[j].nick == state.players[j].nick && after[j].tokens == state.players[j].tokens &&
      (forall c :: PointsIn(after[j], c) == PointsIn(state.players[j], c) + FinalBonus(state, j, c))
  }

  /** What final scoring adds to player `j`'s points in category `c`. */
  function FinalBonus(state: GameState, j: nat, c: PointCategory): nat
    requires j < |state.players|
  {
    if c == BiggestCity && TokenCount(state.players[j], Award(King)) > 0 then CountCompletedCities(state)
    else if c == LongestRoad && TokenCount(state.players[j], Award(Robber)) > 0 then CountCompletedRoads(state)
    else 0
  }

  /** No player holds either award. */
  predicate NoAwardHolder(ps: seq<PlayerRecord>)
  {
    forall j :: 0 <= j < |ps| ==> TokenCount(ps[j], Award(King)) == 0 && TokenCount(ps[j], Award(Robber)) == 0
  }

  /** onFinalScoring: each KING holder gains countCompletedCities points in BIGGEST_CITY and
      each ROBBER holder gains countCompletedRoads points in LONGEST_ROAD; nothing else
      changes. */
  method OnFinalScoring(state: GameState) returns (r: GameState)
    ensures r == state.(players := r.players)
    ensures FinalScored(state, r.players)
    ensures NoAwardHolder(state.players) ==> r == state
  {
    var ps := state.players;
    var s := state;
    var i := 0;
    while i < |ps|
      invariant 0 <= i <= |ps|
      invariant s == state.(players := s.players)
      invariant |s.players| == |ps|
      invariant forall j :: 0 <= j < |ps| ==> s.players[j].nick == ps[j].nick && s.players[j].tokens == ps[j].tokens
      invariant forall j, c :: 0 <= j < i ==> PointsIn(s.players[j], c) == PointsIn(ps[j], c) + FinalBonus(state, j, c)
      invariant forall j :: i <= j < |ps| ==> s.players[j].points == ps[j].points
      invariant NoAwardHolder(ps[..i]) ==> s == state
    {
      if TokenCount(ps[i], Award(King)) > 0 {
        s := AddPoints(s, i, CountCompletedCities(s), BiggestCity);
      }
      if TokenCount(ps[i], Award(Robber)) > 0 {
        s := AddPoints(s, i, CountCompletedRoads(s), LongestRoad);
      }
      i := i + 1;
    }
    r := s;
  }

  /** When this turn's features are on the board and completed, an award moves exactly
      when the largest completed feature of its kind, this turn included, is larger than
      the largest one completed before (the memoized getter against getMaxSize). */
  lemma TransferIffRecordBroken(state: GameState, completed: set<Feature>, a: BiggestFeatureAward)
    requires forall f :: f in completed && f.kind == AwardKind(a) ==> f in state.features && f.completed
    ensures Transfers(state, completed, a) <==>
              GetMaxSize(state, AwardKind(a), {}) > HistoricalMax(state, completed, a)
  {
  }

  /** Tie-break: when every feature of the kind completed this turn is at most as large as
      some feature completed in an earlier turn, the award stays where it is. */
  lemma TieDoesNotTransfer(state: GameState, completed: set<Feature>, a: BiggestFeatureAward, g: Feature)
    requires g in state.features && g.completed && g.kind == AwardKind(a) && g !in completed
    requires forall f :: f in completed && f.kind == AwardKind(a) ==> f.size <= g.size
    ensures !Transfers(state, completed, a)
  {
  }

  /** Two different cities of equal size completed in the same turn, larger than every
      city completed in an earlier turn: both are left out of the historical maximum, so
      the tie between them does not block the move of KING. */
  lemma EqualCitiesInOneTurnTransfer(state: GameState, completed: set<Feature>, c1: Feature, c2: Feature)
    requires c1 != c2 && c1 in completed && c2 in completed
    requires c1.kind == FeatureKind.City && c2.kind == FeatureKind.City && c1.size == c2.size > 0
    requires forall f :: f in state.features && f.kind == FeatureKind.City && f.completed && f !in completed ==>
               f.size < c1.size
    ensures Transfers(state, completed, King)
  {
    var m := HistoricalMax(state, completed, King);
    assert m < c1.size;
    assert Beats(c1, FeatureKind.City, m);
  }

  /** Exclusivity after final scoring: when `h` is the only holder of award `a`, `h` gains
      the award points in the award's category and nobody else gains anything there. */
  lemma SingleHolderScores(state: GameState, after: seq<PlayerRecord>, a: BiggestFeatureAward, h: nat)
    requires FinalScored(state, after)
    requires Holders(state.players, a) == {h}
    ensures h < |after|
    ensures PointsIn(after[h], AwardCategory(a)) == PointsIn(state.players[h], AwardCategory(a)) + AwardPoints(state, a)
    ensures forall j :: 0 <= j < |after| && j != h ==>
              PointsIn(after[j], AwardCategory(a)) == PointsIn(state.players[j], AwardCategory(a))
  {
    assert h in Holders(state.players, a);
    forall j | 0 <= j < |after| && j != h
      ensures PointsIn(after[j], AwardCategory(a)) == PointsIn(state.players[j], AwardCategory(a))
    {
      assert j !in Holders(state.players, a);
      assert PointsIn(after[j], AwardCategory(a)) == PointsIn(state.players[j], AwardCategory(a)) + FinalBonus(state, j, AwardCategory(a));
    }
    assert PointsIn(after[h], AwardCategory(a)) == PointsIn(state.players[h], AwardCategory(a)) + FinalBonus(state, h, AwardCategory(a));
  }
}
