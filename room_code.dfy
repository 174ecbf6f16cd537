/**
 * The room code built by `create_game` (server/server.js:34-38): four draws,
 * each an index into the 26 capital letters, concatenated left to right. The
 * draws stand for `Math.floor(Math.random() * chars.length)`.
 */
module RoomCode {

  const ALPHABET: string := "ABCDEFGHIJKLMNOPQRSTUVWXYZ"
  const CODE_LENGTH: nat := 4

  /** Every draw is an index of ALPHABET, as `Math.floor(Math.random() * 26)` always is. */
  predicate InAlphabet(draws: seq<int>)
  {
    forall k :: 0 <= k < |draws| ==> 0 <= draws[k] < |ALPHABET|
  }

  /** A well-formed room code: exactly four capital letters. */
  predicate IsRoomCode(s: string)
  {
    |s| == CODE_LENGTH && forall k :: 0 <= k < |s| ==> 'A' <= s[k] <= 'Z'
  }

  /** `chars.charAt(i)`: the one-letter string at `i`, or the empty string outside the alphabet. */
  function CharAt(i: int): (r: string)
    ensures |r| <= 1
    ensures 0 <= i < |ALPHABET| <==> |r| == 1
    ensures 0 <= i < |ALPHABET| ==> 'A' <= r[0] <= 'Z'
  {
    if 0 <= i < |ALPHABET| then AlphabetAt(i); [ALPHABET[i]] else ""
  }

  /** The code that `gameCode += chars.charAt(draw)` accumulates over `draws`. */
  function CodeOf(draws: seq<int>): (r: string)
    ensures |r| <= |draws|
    ensures forall k :: 0 <= k < |r| ==> 'A' <= r[k] <= 'Z'
    decreases |draws|
  {
    if draws == [] then "" else CodeOf(draws[..|draws| - 1]) + CharAt(draws[|draws| - 1])
  }

  /** Letter `k` of the alphabet is the character `k` places after `A`. */
  lemma AlphabetAt(k: int)
    requires 0 <= k < |ALPHABET|
    ensures ALPHABET[k] as int == 'A' as int + k
  {
  }

  /** In-alphabet draws give one letter per draw, the letter each draw indexes. */
  lemma {:induction false} CodeOfLetters(draws: seq<int>)
    requires InAlphabet(draws)
    ensures |CodeOf(draws)| == |draws|
    ensures forall k :: 0 <= k < |draws| ==> CodeOf(draws)[k] == ALPHABET[draws[k]]
  {
    if draws != [] {
      var init := draws[..|draws| - 1];
      assert InAlphabet(init);
      CodeOfLetters(init);
    }
  }

  /** Four in-alphabet draws always give a well-formed room code. */
  lemma GeneratedCodeIsRoomCode(draws: seq<int>)
    requires |draws| == CODE_LENGTH && InAlphabet(draws)
    ensures IsRoomCode(CodeOf(draws))
  {
    CodeOfLetters(draws);
    forall k | 0 <= k < CODE_LENGTH
      ensures 'A' <= CodeOf(draws)[k] <= 'Z'
    {
      AlphabetAt(draws[k]);
    }
  }

  /** Every well-formed room code is produced by some four draws: all 26^4 codes can occur. */
  lemma EveryRoomCodeGenerated(code: string)
    requires IsRoomCode(code)
    ensures exists draws :: |draws| == CODE_LENGTH && InAlphabet(draws) && CodeOf(draws) == code
  {
    var draws := seq(CODE_LENGTH, k requires 0 <= k < CODE_LENGTH => code[k] as int - 'A' as int);
    assert InAlphabet(draws);
    CodeOfLetters(draws);
    forall k | 0 <= k < CODE_LENGTH
      ensures CodeOf(draws)[k] == code[k]
    {
      AlphabetAt(draws[k]);
    }
  }

  /** Distinct in-alphabet draws give distinct codes, so uniform draws give uniform codes. */
  lemma CodeOfInjective(d1: seq<int>, d2: seq<int>)
    requires |d1| == |d2| && InAlphabet(d1) && InAlphabet(d2)
    requires CodeOf(d1) == CodeOf(d2)
    ensures d1 == d2
  {
    CodeOfLetters(d1);
    CodeOfLetters(d2);
    forall k | 0 <= k < |d1|
      ensures d1[k] == d2[k]
    {
      AlphabetAt(d1[k]);
      AlphabetAt(d2[k]);
    }
  }

  /** The draws 2, 14, 3, 4 spell CODE. */
  lemma CodeExample()
    ensures CodeOf([2, 14, 3, 4]) == "CODE"
  {
    CodeOfLetters([2, 14, 3, 4]);
  }

  /** The loop of server/server.js:35-38. */
  method BuildCode(draws: seq<int>) returns (code: string)
    requires |draws| == CODE_LENGTH
    ensures code == CodeOf(draws)
    ensures InAlphabet(draws) ==> IsRoomCode(code)
    ensures InAlphabet(draws) ==> forall k :: 0 <= k < CODE_LENGTH ==> code[k] == ALPHABET[draws[k]]
  {
    code := "";
    for i := 0 to CODE_LENGTH
      invariant code == CodeOf(draws[..i])
    {
      assert draws[..i + 1][..i] == draws[..i];
      code := code + CharAt(draws[i]);
    }
    assert draws[..CODE_LENGTH] == draws;
    if InAlphabet(draws) {
      GeneratedCodeIsRoomCode(draws);
      CodeOfLetters(draws);
    }
  }
}
