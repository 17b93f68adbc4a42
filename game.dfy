/** The immutable game state that capabilities read and rebuild: the features on the
    board, the players registry with its token counts and category points, the active
    capabilities and the append-only event log. Only what the King and Robber Baron
    capability and the game-over panel touch is represented; the board topology that
    decides completion and size is abstracted into each feature's fields. */
module Game {

  datatype Option<T> = None | Some(value: T)

  /** The kinds of territorial segment a feature can be. */
  datatype FeatureKind = City | Road | Farm | Cloister

  /** A feature on the board. `size` is the number of tile positions it spans and
      `completed` is its completion predicate evaluated on the state holding it;
      `id` tells apart two features of the same kind and size. */
  datatype Feature = Feature(id: nat, kind: FeatureKind, size: nat, completed: bool)

  /** The two award tokens of the King and Robber Baron expansion. */
  datatype BiggestFeatureAward = King | Robber

  /** Token kinds tracked by the players registry: the awards above, or a token of some
      other capability, known here only by name. */
  datatype Token = Award(award: BiggestFeatureAward) | OtherToken(name: string)

  /** Point categories shown on the game-over panel. */
  datatype PointCategory =
    | Road | City | Cloister | Farm | Castle | BiggestCity | LongestRoad
    | TradeGoods | Gold | Sheep | Fairy | TowerRansom | BazaarAuction | WindRose

  /** Capabilities (rule modules) a game can have installed. */
  datatype Capability = KingAndRobberBaron | Count | OtherCapability(name: string)

  /** One player's entry in the registry; the player's index is its position. */
  datatype PlayerRecord = PlayerRecord(nick: string, tokens: map<Token, nat>, points: map<PointCategory, int>)

  /** Metadata of an event: the index of the player who triggered it, if any. */
  datatype EventMeta = EventMeta(triggeringPlayer: Option<nat>)

  datatype PlayEvent =
    | TokenReceived(meta: EventMeta, receiver: nat, token: Token, count: nat, source: Option<Feature>)
    | TilePlaced(meta: EventMeta)
    | OtherEvent(meta: EventMeta)

  datatype GameState = GameState(
    features: seq<Feature>,
    players: seq<PlayerRecord>,
    turnPlayer: nat,
    activePlayer: Option<nat>,
    capabilities: set<Capability>,
    events: seq<PlayEvent>)

  /** How many tokens of kind `t` a player holds; a kind never set counts as 0. */
  function TokenCount(p: PlayerRecord, t: Token): nat
  {
    if t in p.tokens then p.tokens[t] else 0
  }

  /** A player's points in category `c`; a category never scored counts as 0. */
  function PointsIn(p: PlayerRecord, c: PointCategory): int
  {
    if c in p.points then p.points[c] else 0
  }

  /** The players-registry update that overwrites one player's count of one token kind. */
  function SetTokenCount(ps: seq<PlayerRecord>, i: nat, t: Token, n: nat): (r: seq<PlayerRecord>)
    requires i < |ps|
    ensures |r| == |ps|
    ensures TokenCount(r[i], t) == n
    ensures forall j, u :: 0 <= j < |r| && (j != i || u != t) ==> TokenCount(r[j], u) == TokenCount(ps[j], u)
    ensures forall j :: 0 <= j < |r| ==> r[j].nick == ps[j].nick && r[j].points == ps[j].points
  {
    ps[i := ps[i].(tokens := ps[i].tokens[t := n])]
  }

  /** The AddPoints reducer: adds `amount` to player `i`'s total in category `c`. */
  function AddPoints(s: GameState, i: nat, amount: int, c: PointCategory): (r: GameState)
    requires i < |s.players|
    ensures r == s.(players := r.players)
    ensures |r.players| == |s.players|
    ensures PointsIn(r.players[i], c) == PointsIn(s.players[i], c) + amount
    ensures forall j, d :: 0 <= j < |r.players| && (j != i || d != c) ==> PointsIn(r.players[j], d) == PointsIn(s.players[j], d)
    ensures forall j :: 0 <= j < |r.players| ==> r.players[j].nick == s.players[j].nick && r.players[j].tokens == s.players[j].tokens
  {
    var p := s.players[i];
    s.(players := s.players[i := p.(points := p.points[c := PointsIn(p, c) + amount])])
  }

  /** Event metadata naming the state's active player as the trigger. */
  function CreateWithActivePlayer(s: GameState): EventMeta
  {
    EventMeta(s.activePlayer)
  }

  /** Appends one event to the log, leaving every earlier entry in place. */
  function AppendEvent(s: GameState, e: PlayEvent): (r: GameState)
    ensures r == s.(events := r.events)
    ensures |r.events| == |s.events| + 1 && r.events[..|s.events|] == s.events && r.events[|s.events|] == e
  {
    s.(events := s.events + [e])
  }
}
