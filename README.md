# King & Robber Baron awards and the game-over statistics of JCloisterZone

This project is a Dafny model of two parts of the JCloisterZone game engine.

The first part is the **King and Robber Baron capability**. During turn scoring it moves the
KING token when a player completes a city larger than every city completed in an earlier
turn. It moves the ROBBER token in the same way for roads. Each move overwrites every
player's count (1 for the turn player, 0 for everyone else) and appends one `TokenReceived`
event. At the end of
the game, each KING holder scores one BIGGEST_CITY point per completed city, plus one when the
Count capability is installed. Each ROBBER holder scores one LONGEST_ROAD point per completed
road.

The second part is the **arithmetic behind the game-over panel**:
- the sort of players by total points, descending, with ties broken by nickname ignoring case;
- shared ranks ("2 - 3") for runs of tied players;
- the number of tiles each player placed;
- the game's total clock;
- the h:mm:ss split of clock times.

Files:
- `game.dfy` (module `Game`): the immutable game state that the capability reads and
  rebuilds. It holds the features, the players registry (token counts and points per
  category), the installed capabilities and the append-only event log. It also holds the
  reducers the capability calls: `SetTokenCount`, `AddPoints` and `AppendEvent`.
- `king_and_robber_baron.dfy` (module `KingAndRobberBaronCapability`).
- `game_over_panel.dfy` (module `GameOverPanel`).
- `counting.dfy` (module `Counting`): counting the elements of a sequence that satisfy a
  predicate. Both `filter(...).size()` pipelines are built on it.

The two scoring hooks are methods with loops over immutable snapshots, as in the source. The
loop over the features completed this turn picks each next feature with `:|`. This keeps the
iteration order of the source's hash map unspecified. The sort is an in-place insertion sort
on an array. `getRank` keeps its two index-moving loops.

Every feature completed this turn is left out of the historical maximum. So two equal cities
completed together both beat an older, smaller record, and KING moves
(`EqualCitiesInOneTurnTransfer`). Only a feature completed in an earlier turn can block a
transfer by a tie (`TieDoesNotTransfer`).

## Model

| member | source | states |
|---|---|---|
| `Game.SetTokenCount` | src/main/java/com/jcloisterzone/game/capability/KingAndRobberBaronCapability.java:51 | the chosen player's count of the chosen token becomes the new value; every other count of every player, every nickname and every point total is unchanged |
| `Game.AppendEvent` | src/main/java/com/jcloisterzone/game/capability/KingAndRobberBaronCapability.java:56 | the log grows by exactly one entry, the new event, at its end; every earlier entry and everything outside the log is unchanged (the same append is used at line 65) |
| `Game.AddPoints` | src/main/java/com/jcloisterzone/game/capability/KingAndRobberBaronCapability.java:76 | the player's total in the category grows by the amount; every other player and category, all tokens and everything outside the players registry are unchanged |
| `KingAndRobberBaronCapability.LargestEligible` | src/main/java/com/jcloisterzone/game/capability/KingAndRobberBaronCapability.java:86-91 | the result is at least the size of every completed, non-excluded feature of the kind, and it is either 0 or the size of one such feature |
| `KingAndRobberBaronCapability.GetMaxSize` | src/main/java/com/jcloisterzone/game/capability/KingAndRobberBaronCapability.java:85-92 | the largest size among the board's completed features of the kind outside the exclusion set, and 0 when there are none |
| `KingAndRobberBaronCapability.GetBiggestCitySize` | src/main/java/com/jcloisterzone/game/capability/KingAndRobberBaronCapability.java:94-98 | the size of the largest completed city on the board, with nothing excluded (0 when there is none) |
| `KingAndRobberBaronCapability.GetLongestRoadSize` | src/main/java/com/jcloisterzone/game/capability/KingAndRobberBaronCapability.java:118-122 | the size of the longest completed road on the board, with nothing excluded (0 when there is none) |
| `KingAndRobberBaronCapability.CountCompleted` | src/main/java/com/jcloisterzone/game/capability/KingAndRobberBaronCapability.java:101-103 | equals the number of positions of the feature list that hold a completed feature of the kind |
| `KingAndRobberBaronCapability.CountCompletedCities` | src/main/java/com/jcloisterzone/game/capability/KingAndRobberBaronCapability.java:100-110 | the number of completed cities, plus 1 exactly when the Count capability is installed |
| `KingAndRobberBaronCapability.CountCompletedRoads` | src/main/java/com/jcloisterzone/game/capability/KingAndRobberBaronCapability.java:112-116 | the number of completed roads, with no adjustment |
| `KingAndRobberBaronCapability.FindRecordFeatures` | src/main/java/com/jcloisterzone/game/capability/KingAndRobberBaronCapability.java:33-45 | a city is found exactly when some city completed this turn is larger than every completed city not completed this turn, and the city found is one of those (the same holds for roads) |
| `KingAndRobberBaronCapability.AssignAward` | src/main/java/com/jcloisterzone/game/capability/KingAndRobberBaronCapability.java:50-52 | afterwards the holder's count of the award is 1 and every other player's is 0; other tokens, nicknames and points are unchanged |
| `KingAndRobberBaronCapability.OnTurnScoring` | src/main/java/com/jcloisterzone/game/capability/KingAndRobberBaronCapability.java:30-68 | KING (ROBBER) moves exactly when a city (road) completed this turn beats the historical maximum; on a move, the turn player becomes the only holder. The other award, other tokens, points, board and capabilities are unchanged. Earlier log entries are kept, and exactly one event is appended per move, KING's before ROBBER's, each naming the turn player, count 1 and a beating feature. With no move the state is returned unchanged |
| `KingAndRobberBaronCapability.OnFinalScoring` | src/main/java/com/jcloisterzone/game/capability/KingAndRobberBaronCapability.java:70-83 | every KING holder gains countCompletedCities in BIGGEST_CITY and every ROBBER holder gains countCompletedRoads in LONGEST_ROAD. No other category, token, nickname or part of the state changes. With no holder (in particular with no players) the state is returned unchanged |
| `KingAndRobberBaronCapability.TransferIffRecordBroken` | src/main/java/com/jcloisterzone/game/capability/KingAndRobberBaronCapability.java:33-45 | when this turn's features are completed features on the board, an award moves exactly when the largest completed feature of its kind, this turn included, is larger than the historical maximum |
| `KingAndRobberBaronCapability.TieDoesNotTransfer` | src/main/java/com/jcloisterzone/game/capability/KingAndRobberBaronCapability.java:39-43 | an earlier completed feature at least as large as everything completed this turn blocks the transfer: equal size is not enough |
| `KingAndRobberBaronCapability.EqualCitiesInOneTurnTransfer` | src/main/java/com/jcloisterzone/game/capability/KingAndRobberBaronCapability.java:32-40 | two different cities of equal size completed in the same turn, larger than every city completed in an earlier turn, do move KING: the historical maximum excludes both, so their tie does not block the move |
| `KingAndRobberBaronCapability.SingleHolderScores` | src/main/java/com/jcloisterzone/game/capability/KingAndRobberBaronCapability.java:74-81 | after final scoring, a sole holder gains the award's points in its category and every other player gains nothing there |
| `GameOverPanel.CompareIgnoreCase` | src/main/java/com/jcloisterzone/ui/panel/GameOverPanel.java:282 | the comparison is 0 exactly when the nicknames have the same length and agree character by character once case is folded |
| `GameOverPanel.CompareIgnoreCaseFirstDifference` | src/main/java/com/jcloisterzone/ui/panel/GameOverPanel.java:282 | when the folded nicknames agree up to position k and differ at k, the comparison is the folded character of the first minus that of the second, so it is negative exactly when the first has the smaller character |
| `GameOverPanel.CompareIgnoreCasePrefix` | src/main/java/com/jcloisterzone/ui/panel/GameOverPanel.java:282 | when one folded nickname is a prefix of the other, the comparison is the difference of the lengths, so a proper prefix comes first |
| `GameOverPanel.CompareIgnoreCaseAntisymmetric` | src/main/java/com/jcloisterzone/ui/panel/GameOverPanel.java:282 | swapping the nicknames negates the comparison |
| `GameOverPanel.CompareIgnoreCaseTransitive` | src/main/java/com/jcloisterzone/ui/panel/GameOverPanel.java:282 | if a is not after b and b is not after c, then a is not after c |
| `GameOverPanel.ComparePlayers` | src/main/java/com/jcloisterzone/ui/panel/GameOverPanel.java:279-283 | with different points the result is non-zero and negative exactly when the first player has more points; it is 0 exactly when the points are equal and the nicknames are equal ignoring case (otherwise it is `CompareIgnoreCase` of the nicknames); its order properties are `ComparatorTotal` and `ComparatorTransitive` |
| `GameOverPanel.ComparatorTotal` | src/main/java/com/jcloisterzone/ui/panel/GameOverPanel.java:279-283 | the players comparator orders any two players one way or the other, and is strict when it does not allow the first before the second |
| `GameOverPanel.ComparatorTransitive` | src/main/java/com/jcloisterzone/ui/panel/GameOverPanel.java:279-283 | the players comparator is transitive, as a sort comparator must be |
| `GameOverPanel.SortPlayers` | src/main/java/com/jcloisterzone/ui/panel/GameOverPanel.java:277-284 | the array ends in comparator order and is a permutation of its old contents; each position records where its player came from, and players the comparator ranks equal keep their old relative order (the sort is stable) |
| `GameOverPanel.GetSortedPlayers` | src/main/java/com/jcloisterzone/ui/panel/GameOverPanel.java:274-286 | a permutation of the players with total points non-increasing, players with equal points ordered by nickname ignoring case, ascending, and players the comparator ranks equal left in registry order |
| `GameOverPanel.TieRunUnique` | src/main/java/com/jcloisterzone/ui/panel/GameOverPanel.java:255-259 | the maximal run of equal-points players around a position is unique |
| `GameOverPanel.GetRank` | src/main/java/com/jcloisterzone/ui/panel/GameOverPanel.java:252-264 | for the maximal run [s, e) of equal-points players containing i, with s <= i < e, the rank is place s+1 when the run has one player and the range s+1 to e otherwise |
| `GameOverPanel.Decimal` | src/main/java/com/jcloisterzone/ui/panel/GameOverPanel.java:260-263 | the decimal rendering of a place is a non-empty string of digits without a leading zero whose value is the place |
| `GameOverPanel.RankTextRoundTrip` | src/main/java/com/jcloisterzone/ui/panel/GameOverPanel.java:260-263 | the label `Rank.Text` ("n" for one place, "first - last" for a shared range) reads back as the rank it came from, so two different ranks never get the same label |
| `GameOverPanel.TiedPlayersShareRank` | src/main/java/com/jcloisterzone/ui/panel/GameOverPanel.java:254-263 | every player in a tie run has that same run, hence the same rank |
| `GameOverPanel.MorePointsBetterRank` | src/main/java/com/jcloisterzone/ui/panel/GameOverPanel.java:254-263 | in a points-sorted list, a player with strictly more points has a run that ends before the other's begins, so a smaller first place |
| `GameOverPanel.TilesPlaced` | src/main/java/com/jcloisterzone/ui/panel/GameOverPanel.java:196 | the number of log positions holding a tile placement whose triggering player is the given player |
| `GameOverPanel.TilesPlacedIgnoresOtherEvents` | src/main/java/com/jcloisterzone/ui/panel/GameOverPanel.java:196 | appending events that are not tile placements, such as the award events, leaves every player's tiles-placed count unchanged |
| `GameOverPanel.SplitSeconds` | src/main/java/com/jcloisterzone/ui/panel/GameOverPanel.java:200-208 | minutes and seconds are below 60, and hours*3600 + minutes*60 + seconds recombines to the total |
| `GameOverPanel.SplitSecondsUnique` | src/main/java/com/jcloisterzone/ui/panel/GameOverPanel.java:200-208 | any hours/minutes/seconds triple with minutes and seconds below 60 is the split of its own total, so the split is the only such triple |
| `GameOverPanel.ClockTime` | src/main/java/com/jcloisterzone/ui/panel/GameOverPanel.java:199-203 | a millisecond clock reading, truncated to whole seconds, split into h:mm:ss with minutes and seconds below 60 |
| `GameOverPanel.ClockSumBoundsEach` | src/main/java/com/jcloisterzone/ui/panel/GameOverPanel.java:181-184 | no player's clock exceeds the sum of all clocks |
| `GameOverPanel.ClockSumPermutation` | src/main/java/com/jcloisterzone/ui/panel/GameOverPanel.java:181-184 | summing the clocks over the sorted players gives the same total as over the players in registry order |
| `GameOverPanel.FullTime` | src/main/java/com/jcloisterzone/ui/panel/GameOverPanel.java:181-184 | the game's total time is the sum of the players' clocks, and it bounds every player's clock |
| `GameOverPanel.BuildColumns` | src/main/java/com/jcloisterzone/ui/panel/GameOverPanel.java:185-209 | one column per player in sorted order, holding the rank of its tie run (which exists and is unique), its tiles placed, `ClockTime` of its own clock and `ClockTime` of the game total |
| `GameOverPanel.PointStats` | src/main/java/com/jcloisterzone/ui/panel/GameOverPanel.java:179-209 | the columns follow a stable sorted permutation of the players: players the comparator ranks equal keep their registry order. Each column holds the rank of its tie run, which exists and is unique, the player's tiles placed, the player's clock and the game total as h:mm:ss (minutes and seconds below 60). The player's time never exceeds the game's |

## Left out

- The Swing panel itself is not part of this model: layout rows, icons, labels, buttons,
  translated texts, the collapse toggle and the "Leave game"/"Play again" actions.
- `src/main/java/com/jcloisterzone/ui/grid/layer/AbstractAreaLayer.java` is not part of this
  model. It handles mouse hover and painting.
- The time percentage (GameOverPanel.java:211) is floating point and is not modelled. It is a
  latent defect: it divides the seconds left after removing whole minutes (`seconds % 60`)
  by the same remainder of the game total (`fullseconds % 60`). So it does not compare the
  player's time with the game's, and its denominator is 0 whenever the game total is a whole
  number of minutes.
- The "%d:%02d:%02d" string formatting of the times is not modelled; the model stops at the
  hours/minutes/seconds triple.
- `FullTime`: clocks are summed as unbounded naturals. The source casts each clock to a
  32-bit `int` and sums in `int`, so its result wraps once the total passes 2^31 ms
  (about 24.8 days). `PointStats` and `ClockTime` share this restriction.
- `CompareIgnoreCase`: folds case for the ASCII letters A-Z only. Java's compareToIgnoreCase
  maps each UTF-16 code unit with `Character.toUpperCase` and then `Character.toLowerCase`,
  one character to one character, so it also folds non-ASCII letters. It compares UTF-16 code
  units and returns the length difference in code units, while the model compares Unicode
  scalar values and counts them. Nicknames with non-ASCII letters, or with characters
  outside the Basic Multilingual Plane, may therefore sort differently.
- The board topology is abstract. A feature carries its kind, its size (count of tile
  positions) and whether it is completed. The merging of features and the completion
  predicate over adjacency are outside this model.
- The identity-keyed cache of `MemoizedValue` is not modelled. The memoized getters are the
  pure function they cache, so caching cannot change their result.
- The iteration order of the completed-feature map is not modelled. When several features
  of a kind beat the record in one turn, the model leaves open which one becomes the
  event's source. It need not be the largest of them.
- The score reducers that the completed-feature map carries as values are not used by this
  capability. Only the key set is modelled.
- No well-formedness of the game state is assumed. The feature list may hold the same
  feature twice, and the turn player need not be a registered player. On the board each
  feature occurs once, and the turn player is always registered. Counts are taken over
  positions of the feature list. With a turn player outside the registry, a transfer sets
  every count to 0, as the source's loop does when no player matches.
- Event metadata keeps only the triggering player; the time stamp is left out.
- `AddPoints` is modelled as the point update alone.
- A player's total points (`getPoints`) is taken as given in `PlayerView`. Its summation over
  categories is not modelled.
