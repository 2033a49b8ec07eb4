/** Board construction (`Game::new` in src/game.rs).

    A game is a 7x7 field of cells plus the ordered list of players it was
    built from. The first three players take the slots (1,1), (1,5) and (5,1);
    a fourth takes (5,5). Every other cell stays empty. */
module Board {
  import opened Wrappers

  /** Registered player record (discord id as text and display name). */
  datatype Player = Player(discordId: string, displayName: string)

  /** A platform user id, the result of parsing a discord id. */
  datatype UserId = UserId(value: nat)

  datatype PlayerData = PlayerData(discordId: UserId, displayName: string, health: real)

  /** `Cell::Player(data)` is `Occupied(data)`, `Cell::None` is `Empty`. */
  datatype Cell = Occupied(data: PlayerData) | Empty

  /** The error value the id parser reports; its contents belong to the
      platform library and are not inspected here. */
  datatype IdError = IdError(code: nat)

  datatype GameError =
    | IdParseError(cause: IdError)  // the parser's error, passed on unchanged
    | PlayerCountError              // more than four players

  datatype Game = Game(field: seq<seq<Cell>>, players: seq<PlayerData>)

  /** Parser of discord ids, supplied by the platform library. */
  type IdParser = string -> Result<UserId, IdError>

  const SIZE: nat := 7

  /** Health every player starts with. */
  const START_HEALTH: real := 123.5764846945

  /** The field is SIZE rows of SIZE cells. */
  predicate IsGrid(field: seq<seq<Cell>>)
  {
    |field| == SIZE && forall i :: 0 <= i < |field| ==> |field[i]| == SIZE
  }

  predicate AllIdsParse(players: seq<Player>, parse: IdParser)
  {
    forall k :: 0 <= k < |players| ==> parse(players[k].discordId).Ok?
  }

  /** `k` is the first player whose discord id does not parse. */
  predicate FirstUnparsable(players: seq<Player>, parse: IdParser, k: nat)
  {
    && k < |players|
    && parse(players[k].discordId).Err?
    && forall m :: 0 <= m < k ==> parse(players[m].discordId).Ok?
  }

  /** The player slot a board position holds, as the index of the player in
      input order; positions outside the four slots hold none. */
  function SlotOf(i: nat, j: nat): Option<nat>
  {
    if i == 1 && j == 1 then Some(0)
    else if i == 1 && j == 5 then Some(1)
    else if i == 5 && j == 1 then Some(2)
    else if i == 5 && j == 5 then Some(3)
    else None
  }

  /** The cell the placement rule puts at (i, j) for the given players. */
  function ExpectedCell(players: seq<PlayerData>, i: nat, j: nat): Cell
  {
    match SlotOf(i, j)
    case Some(k) => if k < |players| then Occupied(players[k]) else Empty
    case None => Empty
  }

  /** The board invariant: a 7x7 field built from three or four players, each
      player in its slot in input order and every other cell empty. */
  predicate WellFormed(g: Game)
  {
    && IsGrid(g.field)
    && 3 <= |g.players| <= 4
    && forall i, j :: 0 <= i < SIZE && 0 <= j < SIZE ==> g.field[i][j] == ExpectedCell(g.players, i, j)
  }

  /** The players read back from the slots of a field, in slot order. */
  function Roster(field: seq<seq<Cell>>): (ps: seq<PlayerData>)
    requires IsGrid(field)
    requires field[1][1].Occupied? && field[1][5].Occupied? && field[5][1].Occupied?
  {
    [field[1][1].data, field[1][5].data, field[5][1].data]
      + (if field[5][5].Occupied? then [field[5][5].data] else [])
  }

  function EmptyField(): seq<seq<Cell>>
  {
    seq(SIZE, _ => seq(SIZE, _ => Empty))
  }

  function SetCell(field: seq<seq<Cell>>, i: nat, j: nat, c: Cell): seq<seq<Cell>>
    requires i < |field| && j < |field[i]|
  {
    field[i := field[i][j := c]]
  }

  /** Converts the players in order, stopping at the first discord id that
      does not parse. */
  function CollectPlayerData(players: seq<Player>, parse: IdParser): (r: Result<seq<PlayerData>, GameError>)
    ensures r.Ok? <==> AllIdsParse(players, parse)
    ensures r.Ok? ==> |r.value| == |players|
    ensures r.Ok? ==> forall k :: 0 <= k < |players| ==>
              r.value[k] == PlayerData(parse(players[k].discordId).value, players[k].displayName, START_HEALTH)
    ensures r.Err? ==> exists k: nat :: FirstUnparsable(players, parse, k) && r.error == IdParseError(parse(players[k].discordId).error)
  {
    if |players| == 0 then Ok([])
    else
      match parse(players[0].discordId)
      case Err(cause) => assert FirstUnparsable(players, parse, 0); Err(IdParseError(cause))
      case Ok(id) =>
        match CollectPlayerData(players[1..], parse)
        case Err(e) =>
          var k: nat :| FirstUnparsable(players[1..], parse, k) && e == IdParseError(parse(players[1..][k].discordId).error);
          assert FirstUnparsable(players, parse, k + 1);
          Err(e)
        case Ok(rest) =>
          Ok([PlayerData(id, players[0].displayName, START_HEALTH)] + rest)
  }

  /** `Game::new`. It indexes the first three players before it checks the
      count, so with every id parsing and fewer than three players it aborts
      on an out-of-bounds index; that case is excluded here. */
  function New(players: seq<Player>, parse: IdParser): (r: Result<Game, GameError>)
    requires |players| >= 3 || !AllIdsParse(players, parse)
    ensures !AllIdsParse(players, parse) ==>
              exists k: nat :: FirstUnparsable(players, parse, k) && r == Err(IdParseError(parse(players[k].discordId).error))
    ensures AllIdsParse(players, parse) ==> (r.Ok? <==> |players| <= 4)
    ensures AllIdsParse(players, parse) && |players| > 4 ==> r == Err(PlayerCountError)
    ensures r.Ok? ==> WellFormed(r.value)
    ensures r.Ok? ==> |r.value.players| == |players| && forall k :: 0 <= k < |players| ==>
              r.value.players[k] == PlayerData(parse(players[k].discordId).value, players[k].displayName, START_HEALTH)
    ensures r.Ok? ==> var f := r.value.field; var ps := r.value.players;
              f[1][1] == Occupied(ps[0]) && f[1][5] == Occupied(ps[1]) && f[5][1] == Occupied(ps[2])
    ensures r.Ok? && |players| == 3 ==> r.value.field[5][5] == Empty
    ensures r.Ok? && |players| == 4 ==> r.value.field[5][5] == Occupied(r.value.players[3])
  {
    var field := EmptyField();
    match CollectPlayerData(players, parse)
    case Err(e) => Err(e)
    case Ok(ps) =>
      var f := SetCell(SetCell(SetCell(field, 1, 1, Occupied(ps[0])), 1, 5, Occupied(ps[1])), 5, 1, Occupied(ps[2]));
      if |ps| == 3 then
        var g := Game(SetCell(f, 5, 5, Empty), ps);
        assert WellFormed(g);
        Ok(g)
      else if |ps| == 4 then
        var g := Game(SetCell(f, 5, 5, Occupied(ps[3])), ps);
        assert WellFormed(g);
        Ok(g)
      else Err(PlayerCountError)
  }

  /** Reading the slots of a well-formed board gives back its players, in
      input order. */
  lemma RosterOfWellFormed(g: Game)
    requires WellFormed(g)
    ensures g.field[1][1].Occupied? && g.field[1][5].Occupied? && g.field[5][1].Occupied?
    ensures Roster(g.field) == g.players
  {
    assert g.field[1][1] == ExpectedCell(g.players, 1, 1);
    assert g.field[1][5] == ExpectedCell(g.players, 1, 5);
    assert g.field[5][1] == ExpectedCell(g.players, 5, 1);
    assert g.field[5][5] == ExpectedCell(g.players, 5, 5);
  }

  /** A well-formed board is determined by its players. */
  lemma WellFormedUnique(g1: Game, g2: Game)
    requires WellFormed(g1) && WellFormed(g2)
    requires g1.players == g2.players
    ensures g1 == g2
  {
    forall i | 0 <= i < SIZE
      ensures g1.field[i] == g2.field[i]
    {
      forall j | 0 <= j < SIZE
        ensures g1.field[i][j] == g2.field[i][j]
      {
      }
    }
  }

  /** Building a board and reading its slots gives back every input player,
      converted, in input order. */
  lemma NewRoster(players: seq<Player>, parse: IdParser)
    requires |players| >= 3 || !AllIdsParse(players, parse)
    requires New(players, parse).Ok?
    ensures var g := New(players, parse).value;
            IsGrid(g.field) && g.field[1][1].Occupied? && g.field[1][5].Occupied? && g.field[5][1].Occupied?
            && |Roster(g.field)| == |players|
            && forall k :: 0 <= k < |players| ==>
                 Roster(g.field)[k] == PlayerData(parse(players[k].discordId).value, players[k].displayName, START_HEALTH)
  {
    RosterOfWellFormed(New(players, parse).value);
  }

  /** Exactly the occupied cells are the slots of the players present. */
  lemma OccupiedIffSlot(g: Game, i: nat, j: nat)
    requires WellFormed(g)
    requires i < SIZE && j < SIZE
    ensures g.field[i][j].Occupied? <==> SlotOf(i, j).Some? && SlotOf(i, j).value < |g.players|
  {
  }
}
