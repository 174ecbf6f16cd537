/**
 * The process-wide room registry `games` (server/server.js:18) and the
 * socket handlers that update it: `create_game`, `join_game`, `submit_word`,
 * `disconnect`, with `startNewRound` and `endRound`. Emitted events are
 * returned as outcome values; the two timers are operations the environment
 * calls (`RoundTimedOut` after 30 seconds, `StartNewRound` 3 seconds after a
 * round is over).
 */
module Games {
  import opened Wrappers
  import opened Rooms
  import RoomCode
  import Text

  /** `game_created {gameCode}` or `create_game_error {message}`. */
  datatype CreateOutcome = GameCreated(gameCode: string) | CreateGameError(message: string)

  /** `game_started {player1, player2}` followed by `new_round {prompt}`, or `join_game_error {message}`. */
  datatype JoinOutcome = GameStarted(player1: string, player2: string, prompt: string) | JoinGameError(message: string)

  /** A submission is dropped, or recorded and possibly ends the round with `round_over`. */
  datatype SubmitOutcome = Ignored | Recorded(roundOver: Option<RoundResult>)

  const CODE_EXISTS: string := "Game code already exists"
  const INVALID_OR_FULL: string := "Invalid game code or game is full"

  /** Every room in the registry is well formed; in particular no room is empty. */
  predicate RegistryValid(games: map<string, Room>)
  {
    forall c :: c in games ==> WellFormed(games[c])
  }

  /**
   * `endRound(code)`: nothing unless the room exists and is playing; then the
   * `round_over` payload judged from player 1's and player 2's responses.
   */
  function EndRound(games: map<string, Room>, code: string): (r: Option<RoundResult>)
    ensures r.Some? <==> code in games && games[code].state == Playing
  {
    if code in games && games[code].state == Playing
    then Some(Judge(WordOf(games[code], 0), WordOf(games[code], 1)))
    else None
  }

  /** The registry after the `disconnect` loop: `id` filtered out of every room, empty rooms deleted. */
  function AfterDisconnect(games: map<string, Room>, id: string): (r: map<string, Room>)
    ensures r.Keys <= games.Keys
  {
    map c | c in games && Without(games[c].players, id) != [] :: games[c].(players := Without(games[c].players, id))
  }

  /**
   * After a disconnect no room holds `id`; a room is kept exactly when it
   * still has a player, and a kept room's state, prompt and responses are untouched.
   */
  lemma DisconnectRemovesPlayer(games: map<string, Room>, id: string)
    ensures var r := AfterDisconnect(games, id);
      && r.Keys <= games.Keys
      && (forall c :: c in games ==> (c in r <==> exists p :: p in games[c].players && p.id != id))
      && (forall c :: c in r ==> !Holds(r[c].players, id))
      && (forall c :: c in r ==>
            r[c].players == Without(games[c].players, id) &&
            r[c].state == games[c].state && r[c].prompt == games[c].prompt &&
            r[c].responses == games[c].responses)
  {
    var r := AfterDisconnect(games, id);
    forall c | c in games
      ensures c in r <==> exists p :: p in games[c].players && p.id != id
    {
      var w := Without(games[c].players, id);
      if w != [] {
        assert w[0] in w;
      }
    }
  }

  /**
   * The rooms told `player_disconnected` as the loop is written
   * (server/server.js:101-103): every room that survives, whether or not it
   * ever held `id`.
   */
  function NotifiedAsWritten(games: map<string, Room>, id: string): (r: set<string>)
    ensures r <= games.Keys
  {
    AfterDisconnect(games, id).Keys
  }

  /** As written, a room is told exactly when some player other than `id` remains in it. */
  lemma NotifiedAsWrittenRooms(games: map<string, Room>, id: string)
    ensures forall c :: c in NotifiedAsWritten(games, id) <==>
      c in games && exists p :: p in games[c].players && p.id != id
  {
    DisconnectRemovesPlayer(games, id);
  }

  /** The rooms that should be told: those that held `id` and still have a player. */
  function Notified(games: map<string, Room>, id: string): (r: set<string>)
    ensures r <= NotifiedAsWritten(games, id)
  {
    set c | c in games && Without(games[c].players, id) != [] && Holds(games[c].players, id)
  }

  /** Exactly the rooms that held `id` and still have another player are told. */
  lemma NotifiedRooms(games: map<string, Room>, id: string)
    ensures forall c :: c in Notified(games, id) <==>
      c in games && Holds(games[c].players, id) && exists p :: p in games[c].players && p.id != id
  {
    DisconnectRemovesPlayer(games, id);
  }

  /** As written, a disconnect notifies a room its player was never in. */
  lemma UnrelatedRoomNotified()
    ensures var games := map["ABCD" := Room([Player("p", "Pat")], Waiting, None, map[])];
      "ABCD" in NotifiedAsWritten(games, "q") && "ABCD" !in Notified(games, "q")
  {
  }

  /** Disconnect keeps every room in the registry well formed. */
  lemma AfterDisconnectValid(games: map<string, Room>, id: string)
    requires RegistryValid(games)
    ensures RegistryValid(AfterDisconnect(games, id))
  {
  }

  /** Disconnecting the same id twice is the same as once. */
  lemma AfterDisconnectIdempotent(games: map<string, Room>, id: string)
    ensures AfterDisconnect(AfterDisconnect(games, id), id) == AfterDisconnect(games, id)
  {
    var once := AfterDisconnect(games, id);
    var twice := AfterDisconnect(once, id);
    forall c | c in once
      ensures c in twice && twice[c] == once[c]
    {
      WithoutUnchanged(once[c].players, id);
    }
  }

  /** Disconnecting an id no room holds changes nothing. */
  lemma DisconnectOfStranger(games: map<string, Room>, id: string)
    requires RegistryValid(games)
    requires forall c :: c in games ==> !Holds(games[c].players, id)
    ensures AfterDisconnect(games, id) == games
    ensures NotifiedAsWritten(games, id) == games.Keys
    ensures Notified(games, id) == {}
  {
    var r := AfterDisconnect(games, id);
    forall c | c in games
      ensures c in r && r[c] == games[c]
    {
      WithoutUnchanged(games[c].players, id);
    }
  }

  /**
   * What `round_over` reports for a playing room: each player's response, or
   * "No response" when it is missing or empty; a match exactly when both
   * responses are non-empty and equal up to case.
   */
  lemma EndRoundReportsResponses(games: map<string, Room>, code: string)
    requires code in games && games[code].state == Playing && |games[code].players| == 2
    ensures var room := games[code];
      var id1, id2 := room.players[0].id, room.players[1].id;
      var r := EndRound(games, code).value;
      && (r.matched <==>
           id1 in room.responses && id2 in room.responses &&
           Truthy(room.responses[id1]) && Truthy(room.responses[id2]) &&
           Text.Lower(room.responses[id1].value) == Text.Lower(room.responses[id2].value))
      && r.player1Word == (if id1 in room.responses && Truthy(room.responses[id1]) then room.responses[id1].value else NO_RESPONSE)
      && r.player2Word == (if id2 in room.responses && Truthy(room.responses[id2]) then room.responses[id2].value else NO_RESPONSE)
  {
  }

  /**
   * A playing room whose second seat is empty (after a disconnect) can never
   * match: player 2's word is reported as "No response".
   */
  lemma LonePlayerNeverMatches(games: map<string, Room>, code: string)
    requires code in games && games[code].state == Playing && |games[code].players| == 1
    ensures EndRound(games, code).Some?
    ensures !EndRound(games, code).value.matched
    ensures EndRound(games, code).value.player2Word == NO_RESPONSE
  {
  }

  /**
   * With one submission when the timer fires, the round is lost and the
   * silent player is reported as "No response".
   */
  lemma OneResponseAtTimeout(games: map<string, Room>, code: string, w: string)
    requires code in games && games[code].state == Playing && |games[code].players| == 2
    requires games[code].players[0].id != games[code].players[1].id
    requires w != ""
    requires games[code].responses == map[games[code].players[0].id := Some(w)]
    ensures EndRound(games, code) == Some(RoundResult(false, w, NO_RESPONSE))
  {
  }

  /**
   * A connection that joined its own room plays both seats: its one truthy
   * word is read for both players, and the round matches on one submission.
   */
  lemma SelfJoinMatchesAlone(games: map<string, Room>, code: string, w: string)
    requires code in games && games[code].state == Playing && |games[code].players| == 2
    requires games[code].players[0].id == games[code].players[1].id
    requires w != ""
    requires games[code].responses == map[games[code].players[0].id := Some(w)]
    ensures EndRound(games, code) == Some(RoundResult(true, w, w))
  {
  }

  /**
   * The registry part-way through the `disconnect` loop: the rooms in
   * `pending` are not visited yet, the others are as after the loop.
   */
  ghost function PartlyDisconnected(games: map<string, Room>, id: string, pending: set<string>): map<string, Room>
  {
    map c | c in games && (c in pending || Without(games[c].players, id) != []) ::
      if c in pending then games[c] else games[c].(players := Without(games[c].players, id))
  }

  lemma PartlyDisconnectedStart(games: map<string, Room>, id: string)
    ensures PartlyDisconnected(games, id, games.Keys) == games
  {
  }

  lemma PartlyDisconnectedEnd(games: map<string, Room>, id: string)
    ensures PartlyDisconnected(games, id, {}) == AfterDisconnect(games, id)
  {
  }

  /** Visiting room `c` filters `id` out of it and deletes it if it is left empty. */
  lemma PartlyDisconnectedStep(games: map<string, Room>, id: string, pending: set<string>, c: string)
    requires c in pending && pending <= games.Keys
    ensures var now := PartlyDisconnected(games, id, pending);
      var remaining := Without(now[c].players, id);
      PartlyDisconnected(games, id, pending - {c}) ==
        if remaining != [] then now[c := now[c].(players := remaining)] else now - {c}
  {
  }

  /** Visiting room `c` adds it to the rooms the handler tells exactly when it keeps a player. */
  lemma NotifiedAsWrittenStep(games: map<string, Room>, id: string, pending: set<string>, c: string)
    requires c in pending && pending <= games.Keys
    ensures NotifiedAsWritten(games, id) - (pending - {c}) ==
      (NotifiedAsWritten(games, id) - pending) +
      (if Without(games[c].players, id) != [] then {c} else {})
  {
  }

  /** Visiting room `c` adds it to the rooms that should be told when it also held `id`. */
  lemma NotifiedStep(games: map<string, Room>, id: string, pending: set<string>, c: string)
    requires c in pending && pending <= games.Keys
    ensures Notified(games, id) - (pending - {c}) ==
      (Notified(games, id) - pending) +
      (if Without(games[c].players, id) != [] && Holds(games[c].players, id) then {c} else {})
  {
  }

  /** The registry and its handlers. */
  class Server {
    var games: map<string, Room>

    ghost predicate Valid()
      reads this
    {
      RegistryValid(games)
    }

    constructor ()
      ensures Valid() && games == map[]
    {
      games := map[];
    }

    /** `create_game` (server/server.js:32-53): insert a new waiting room only under an unused code. */
    method CreateGame(id: string, playerName: string, draws: seq<int>) returns (outcome: CreateOutcome)
      requires Valid() && |draws| == RoomCode.CODE_LENGTH
      modifies this
      ensures Valid()
      ensures var code := RoomCode.CodeOf(draws);
        if code in old(games) then
          games == old(games) && outcome == CreateGameError(CODE_EXISTS)
        else
          games == old(games)[code := Room([Player(id, playerName)], Waiting, None, map[])] &&
          outcome == GameCreated(code)
    {
      var code := RoomCode.BuildCode(draws);
      if code !in games {
        games := games[code := Room([Player(id, playerName)], Waiting, None, map[])];
        outcome := GameCreated(code);
      } else {
        outcome := CreateGameError(CODE_EXISTS);
      }
    }

    /**
     * `join_game` (server/server.js:56-77): a room with exactly one player takes
     * the joiner as player 2, starts playing and starts its first round.
     */
    method JoinGame(id: string, code: string, playerName: string, prompt: string) returns (outcome: JoinOutcome)
      requires Valid()
      modifies this
      ensures Valid()
      ensures outcome.GameStarted? <==> code in old(games) && |old(games)[code].players| == 1
      ensures outcome.GameStarted? ==>
        var seated := old(games)[code].players[0];
        games == old(games)[code := Room([seated, Player(id, playerName)], Playing, Some(prompt), map[])] &&
        outcome == GameStarted(seated.name, playerName, prompt)
      ensures outcome.JoinGameError? ==> games == old(games) && outcome.message == INVALID_OR_FULL
    {
      if code in games && |games[code].players| == 1 {
        var room := games[code];
        assert room.players + [Player(id, playerName)] == [room.players[0], Player(id, playerName)];
        games := games[code := room.(players := room.players + [Player(id, playerName)], state := Playing)];
        var player1Name := games[code].players[0].name;
        var player2Name := games[code].players[1].name;
        var started := StartNewRound(code, prompt);
        outcome := GameStarted(player1Name, player2Name, prompt);
      } else {
        outcome := JoinGameError(INVALID_OR_FULL);
      }
    }

    /**
     * `submit_word` (server/server.js:80-91): the first response of an id is
     * kept; the round ends as soon as the responses number two.
     */
    method SubmitWord(id: string, code: string, word: Option<string>) returns (outcome: SubmitOutcome)
      requires Valid()
      modifies this
      ensures Valid()
      ensures outcome.Recorded? <==> code in old(games) && !HasResponse(old(games)[code], id)
      ensures outcome.Ignored? ==> games == old(games)
      ensures outcome.Recorded? ==>
        games == old(games)[code := Record(old(games)[code], id, word)] &&
        outcome.roundOver == if |games[code].responses| == 2 then EndRound(games, code) else None
    {
      if code in games && !HasResponse(games[code], id) {
        games := games[code := Record(games[code], id, word)];
        if |games[code].responses| == 2 {
          outcome := Recorded(EndRound(games, code));
        } else {
          outcome := Recorded(None);
        }
      } else {
        outcome := Ignored;
      }
    }

    /**
     * `disconnect` (server/server.js:94-105): one pass over the rooms, filtering
     * `id` out of each and deleting those left empty. Returns the rooms the
     * handler tells `player_disconnected` (every room that survives) and the
     * rooms that should be told (those that held `id` and survive).
     */
    method Disconnect(id: string) returns (told: set<string>, shouldTell: set<string>)
      requires Valid()
      modifies this
      ensures Valid()
      ensures games == AfterDisconnect(old(games), id)
      ensures told == NotifiedAsWritten(old(games), id)
      ensures shouldTell == Notified(old(games), id)
    {
      ghost var before := games;
      var pending := games.Keys;
      told, shouldTell := {}, {};
      PartlyDisconnectedStart(before, id);
      while pending != {}
        invariant pending <= before.Keys
        invariant games == PartlyDisconnected(before, id, pending)
        invariant told == NotifiedAsWritten(before, id) - pending
        invariant shouldTell == Notified(before, id) - pending
        decreases pending
      {
        var c :| c in pending;
        PartlyDisconnectedStep(before, id, pending, c);
        NotifiedAsWrittenStep(before, id, pending, c);
        NotifiedStep(before, id, pending, c);
        var kept, had := LeaveRoom(c, id);
        if kept {
          told := told + {c};
          if had {
            shouldTell := shouldTell + {c};
          }
        }
        pending := pending - {c};
      }
      PartlyDisconnectedEnd(before, id);
      AfterDisconnectValid(before, id);
    }

    /**
     * One turn of the `disconnect` loop (server/server.js:97-99): filter `id`
     * out of room `c` and delete the room if that leaves it empty.
     */
    method LeaveRoom(c: string, id: string) returns (kept: bool, had: bool)
      requires c in games
      modifies this
      ensures had == Holds(old(games)[c].players, id)
      ensures kept == (Without(old(games)[c].players, id) != [])
      ensures games == if kept then old(games)[c := old(games)[c].(players := Without(old(games)[c].players, id))]
                       else old(games) - {c}
    {
      had := Holds(games[c].players, id);
      var remaining := Without(games[c].players, id);
      games := games[c := games[c].(players := remaining)];
      kept := |remaining| != 0;
      if !kept {
        games := games - {c};
      }
    }

    /** `startNewRound` (server/server.js:108-124): clear the responses and show a new prompt. */
    method StartNewRound(code: string, prompt: string) returns (started: bool)
      requires Valid()
      modifies this
      ensures Valid()
      ensures started == (code in old(games))
      ensures started ==> games == old(games)[code := old(games)[code].(prompt := Some(prompt), responses := map[])]
      ensures !started ==> games == old(games)
    {
      started := code in games;
      if started {
        games := games[code := games[code].(responses := map[], prompt := Some(prompt))];
      }
    }

    /** The 30-second timer of server/server.js:118-122: end the round if the room is playing. */
    method RoundTimedOut(code: string) returns (roundOver: Option<RoundResult>)
      ensures roundOver.Some? <==> code in games && games[code].state == Playing
      ensures roundOver == EndRound(games, code)
    {
      if code in games && games[code].state == Playing {
        roundOver := EndRound(games, code);
      } else {
        roundOver := None;
      }
    }
  }

  /** Ann creates room CODE, a second create under the same code fails, and Bob joins. */
  method PairingScenario() returns (server: Server, created: CreateOutcome, clash: CreateOutcome, started: JoinOutcome)
    ensures fresh(server) && server.Valid()
    ensures created == GameCreated("CODE")
    ensures clash == CreateGameError(CODE_EXISTS)
    ensures started == GameStarted("Ann", "Bob", "img1")
    ensures server.games == map["CODE" := Room([Player("a", "Ann"), Player("b", "Bob")], Playing, Some("img1"), map[])]
  {
    server := new Server();
    RoomCode.CodeExample();
    created := server.CreateGame("a", "Ann", [2, 14, 3, 4]);
    assert server.games == map["CODE" := Room([Player("a", "Ann")], Waiting, None, map[])];
    clash := server.CreateGame("c", "Cy", [2, 14, 3, 4]);
    started := server.JoinGame("b", "CODE", "Bob", "img1");
  }

  /** In the first round "Cat" and "cat" match; a late word from Ann is dropped. */
  method MatchingRound(server: Server) returns (first: SubmitOutcome, second: SubmitOutcome, late: SubmitOutcome)
    requires server.Valid()
    requires server.games == map["CODE" := Room([Player("a", "Ann"), Player("b", "Bob")], Playing, Some("img1"), map[])]
    modifies server
    ensures first == Recorded(None)
    ensures second == Recorded(Some(RoundResult(true, "Cat", "cat")))
    ensures late == Ignored
    ensures "CODE" in server.games && server.games["CODE"].responses == map["a" := Some("Cat"), "b" := Some("cat")]
  {
    var players := [Player("a", "Ann"), Player("b", "Bob")];
    first := server.SubmitWord("a", "CODE", Some("Cat"));
    assert server.games == map["CODE" := Room(players, Playing, Some("img1"), map["a" := Some("Cat")])];
    second := server.SubmitWord("b", "CODE", Some("cat"));
    var responses := map["a" := Some("Cat"), "b" := Some("cat")];
    assert server.games == map["CODE" := Room(players, Playing, Some("img1"), responses)];
    CaseInsensitiveExamples();
    late := server.SubmitWord("a", "CODE", Some("dog"));
  }

  /** Ann leaves: Bob stays in a playing room and is told; Bob leaves: the room is gone. */
  method LeavingScenario(server: Server) returns (firstTold: set<string>, between: map<string, Room>, lastTold: set<string>)
    requires server.Valid()
    requires server.games == map["CODE" := Room([Player("a", "Ann"), Player("b", "Bob")], Playing, Some("img1"), map[])]
    modifies server
    ensures firstTold == {"CODE"}
    ensures between == map["CODE" := Room([Player("b", "Bob")], Playing, Some("img1"), map[])]
    ensures lastTold == {}
    ensures server.games == map[]
  {
    var ann, bob := Player("a", "Ann"), Player("b", "Bob");
    assert Without([ann, bob], "a") == [bob] by {
      assert [ann, bob][1..] == [bob];
    }
    assert Holds([ann, bob], "a") by {
      assert ann in [ann, bob];
    }
    var firstShould;
    firstTold, firstShould := server.Disconnect("a");
    between := server.games;
    assert between == map["CODE" := Room([bob], Playing, Some("img1"), map[])];
    assert Without([bob], "b") == [];
    var lastShould;
    lastTold, lastShould := server.Disconnect("b");
  }
}
