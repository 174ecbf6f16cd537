/**
 * One entry of the `games` registry (server/server.js:41-46) and the pure part
 * of a round: reading the two players' words and judging the match
 * (`endRound`, server/server.js:129-140).
 */
module Rooms {
  import opened Wrappers
  import opened Text

  /** A connection: its socket id and the display name it supplied. */
  datatype Player = Player(id: string, name: string)

  /** The `state` strings `'waiting'` and `'playing'`; the code never sets any other. */
  datatype GameState = Waiting | Playing

  /**
   * The room record. A response is `Some(word)` or `None` when the payload
   * carried no word (JavaScript `undefined`); the key is then still present.
   */
  datatype Room = Room(
    players: seq<Player>,
    state: GameState,
    prompt: Option<string>,
    responses: map<string, Option<string>>)

  /** The payload of `round_over`. */
  datatype RoundResult = RoundResult(matched: bool, player1Word: string, player2Word: string)

  const NO_RESPONSE: string := "No response"

  /**
   * What every room in the registry satisfies: one or two players, and a room
   * still waiting for its second player has exactly one.
   */
  predicate WellFormed(room: Room)
  {
    1 <= |room.players| <= 2 && (room.state == Waiting ==> |room.players| == 1)
  }

  /** `game.responses[id] !== undefined`. */
  predicate HasResponse(room: Room, id: string)
  {
    id in room.responses && room.responses[id].Some?
  }

  /** `game.responses[id] = word` (server/server.js:85). */
  function Record(room: Room, id: string, word: Option<string>): (r: Room)
    ensures r.players == room.players && r.state == room.state && r.prompt == room.prompt
    ensures id in r.responses && r.responses[id] == word
    ensures HasResponse(r, id) <==> word.Some?
    ensures forall other :: other != id ==>
      (other in r.responses <==> other in room.responses) &&
      (other in room.responses ==> r.responses[other] == room.responses[other])
    ensures |r.responses| == if id in room.responses then |room.responses| else |room.responses| + 1
  {
    room.(responses := room.responses[id := word])
  }

  /** `players.filter(player => player.id !== id)` (server/server.js:97). */
  function Without(players: seq<Player>, id: string): (r: seq<Player>)
    ensures |r| <= |players|
    ensures forall p :: p in r <==> p in players && p.id != id
    decreases |players|
  {
    if players == [] then []
    else (if players[0].id == id then [] else [players[0]]) + Without(players[1..], id)
  }

  /** Filtering out an id no player has returns the same list; otherwise the list shrinks. */
  lemma {:induction false} WithoutUnchanged(players: seq<Player>, id: string)
    ensures Without(players, id) == players <==> !Holds(players, id)
    decreases |players|
  {
    if players != [] {
      WithoutUnchanged(players[1..], id);
      if players[0].id == id {
        assert |Without(players, id)| <= |players[1..]| < |players|;
      } else {
        assert players == [players[0]] + players[1..];
        assert Holds(players[1..], id) ==> Holds(players, id);
      }
    }
  }

  /**
   * Filtering keeps the order and does not duplicate: from a pair, removing
   * one id leaves exactly the other player, who becomes player 1.
   */
  lemma WithoutPair(a: Player, b: Player)
    requires a.id != b.id
    ensures Without([a, b], a.id) == [b]
    ensures Without([a, b], b.id) == [a]
  {
    assert [a, b][1..] == [b];
  }

  /** Whether some player in the list has connection id `id`. */
  predicate Holds(players: seq<Player>, id: string)
  {
    exists p :: p in players && p.id == id
  }

  /** `game.responses[game.players[i].id]`: undefined when there is no i-th player or no entry. */
  function WordOf(room: Room, i: nat): (r: Option<string>)
    ensures r.Some? ==> i < |room.players| && HasResponse(room, room.players[i].id)
    ensures i < |room.players| && HasResponse(room, room.players[i].id) ==>
      r == room.responses[room.players[i].id]
  {
    if i < |room.players| && room.players[i].id in room.responses
    then room.responses[room.players[i].id]
    else None
  }

  /** JavaScript truthiness of a word: present and not the empty string. */
  predicate Truthy(w: Option<string>)
  {
    w.Some? && w.value != ""
  }

  /** `word || 'No response'`: never empty, and the word itself whenever it is truthy. */
  function Reported(w: Option<string>): (r: string)
    ensures r != ""
    ensures Truthy(w) ==> r == w.value
  {
    if Truthy(w) then w.value else NO_RESPONSE
  }

  /** The `round_over` payload computed from the two words (server/server.js:132-141). */
  function Judge(w1: Option<string>, w2: Option<string>): (r: RoundResult)
    ensures r.matched ==> w1.Some? && w2.Some? && r.player1Word == w1.value && r.player2Word == w2.value
    ensures r.matched ==> Lower(r.player1Word) == Lower(r.player2Word)
    ensures r.matched ==> r.player1Word != "" && r.player2Word != ""
  {
    RoundResult(
      Truthy(w1) && Truthy(w2) && Lower(w1.value) == Lower(w2.value),
      Reported(w1),
      Reported(w2))
  }

  /**
   * A round matches exactly when both words are present, non-empty, of equal
   * length and equal letter by letter up to case.
   */
  lemma JudgeMatch(w1: Option<string>, w2: Option<string>)
    ensures Judge(w1, w2).matched <==>
      w1.Some? && w2.Some? && w1.value != "" && w2.value != "" &&
      |w1.value| == |w2.value| &&
      forall i :: 0 <= i < |w1.value| ==> LowerChar(w1.value[i]) == LowerChar(w2.value[i])
  {
  }

  /** Each reported word is the player's word, or "No response" when it is missing or empty. */
  lemma JudgeWords(w1: Option<string>, w2: Option<string>)
    ensures w1.Some? && w1.value != "" ==> Judge(w1, w2).player1Word == w1.value
    ensures w1.None? || w1.value == "" ==> Judge(w1, w2).player1Word == NO_RESPONSE
    ensures w2.Some? && w2.value != "" ==> Judge(w1, w2).player2Word == w2.value
    ensures w2.None? || w2.value == "" ==> Judge(w1, w2).player2Word == NO_RESPONSE
    ensures !Truthy(w1) || !Truthy(w2) ==> !Judge(w1, w2).matched
  {
  }

  /** Swapping the players keeps the match flag and swaps the reported words. */
  lemma JudgeSymmetric(w1: Option<string>, w2: Option<string>)
    ensures Judge(w2, w1).matched == Judge(w1, w2).matched
    ensures Judge(w2, w1).player1Word == Judge(w1, w2).player2Word
    ensures Judge(w2, w1).player2Word == Judge(w1, w2).player1Word
  {
  }

  /** Words that differ only in case match; different words do not. */
  lemma CaseInsensitiveExamples()
    ensures Judge(Some("Cat"), Some("cat")) == RoundResult(true, "Cat", "cat")
    ensures Judge(Some("cat"), Some("dog")) == RoundResult(false, "cat", "dog")
    ensures Judge(Some("cat"), None) == RoundResult(false, "cat", NO_RESPONSE)
    ensures Judge(Some(""), Some("")) == RoundResult(false, NO_RESPONSE, NO_RESPONSE)
  {
  }

  /** Two distinct ids submitting into a cleared round complete the pair. */
  lemma PairCompletes(room: Room, a: string, b: string, wa: Option<string>, wb: Option<string>)
    requires room.responses == map[] && a != b
    ensures |Record(Record(room, a, wa), b, wb).responses| == 2
  {
  }
}
