/**
 * The client copies of the shuffle cipher (public/script.js and the copy embedded in
 * src/client/rammerhead.js, which are the same code). They differ from the server
 * cipher in one rule: a '%' with at least two characters after it starts a
 * percent-escape `%XX`, which both directions copy verbatim before going on three
 * positions further. Every other character is handled as on the server, at its own
 * position in the string.
 */
module ClientShuffler {
  import opened StrShuffler

  /** Whether the loop, standing at position `i` of `str`, copies a `%XX` triple. */
  predicate PercentTriple(str: string, i: nat) {
    i < |str| && str[i] == '%' && |str| - i >= 3
  }

  /** What the loop of the client `shuffle` appends from position `i` to the end of `str`. */
  function ShuffleFrom(base: string, dictionary: string, str: string, i: nat): string
    requires |base| > 0 && i <= |str|
    decreases |str| - i
  {
    if i == |str| then ""
    else if PercentTriple(str, i) then str[i..i + 3] + ShuffleFrom(base, dictionary, str, i + 3)
    else ShuffleChar(base, dictionary, str[i], i) + ShuffleFrom(base, dictionary, str, i + 1)
  }

  /** What the loop of the client `unshuffle` appends from position `i` to the end of `str`. */
  function UnshuffleFrom(base: string, dictionary: string, str: string, i: nat): string
    requires |base| > 0 && i <= |str|
    decreases |str| - i
  {
    if i == |str| then ""
    else if PercentTriple(str, i) then str[i..i + 3] + UnshuffleFrom(base, dictionary, str, i + 3)
    else UnshuffleChar(base, dictionary, str[i], i) + UnshuffleFrom(base, dictionary, str, i + 1)
  }

  /** The value the client `shuffle(str)` returns. */
  function ClientShuffled(dictionary: string, str: string): (r: string)
    ensures StartsWith(r, Marker)
    ensures StartsWith(str, Marker) ==> r == str
  {
    if StartsWith(str, Marker) then str else Marker + ShuffleFrom(Base(), dictionary, str, 0)
  }

  /** The value the client `unshuffle(str)` returns. */
  function ClientUnshuffled(dictionary: string, str: string): (r: string)
    ensures !StartsWith(str, Marker) ==> r == str
  {
    if !StartsWith(str, Marker) then str
    else UnshuffleFrom(Base(), dictionary, str[|Marker|..], 0)
  }

  /** Shuffling keeps the length: one output character per input character. */
  lemma {:induction false} ShuffleFromLength(base: string, dictionary: string, str: string, i: nat)
    requires ValidDictionary(base, dictionary) && i <= |str|
    ensures |ShuffleFrom(base, dictionary, str, i)| == |str| - i
    decreases |str| - i
  {
    if i < |str| {
      if PercentTriple(str, i) {
        ShuffleFromLength(base, dictionary, str, i + 3);
      } else {
        CharRoundTrip(base, dictionary, str[i], i);
        ShuffleFromLength(base, dictionary, str, i + 1);
      }
    }
  }

  /** A shuffled character is '%' only if the original was '%', since '%' is not in the alphabet. */
  lemma ShuffleCharPercent(base: string, dictionary: string, c: char, i: int)
    requires ValidDictionary(base, dictionary) && '%' !in base
    ensures ShuffleChar(base, dictionary, c, i)[0] == '%' <==> c == '%'
  {
    ShuffleCharSpec(base, dictionary, c, i);
  }

  /**
   * The general round trip: any `t` that agrees with the shuffled suffix from position `i`
   * onwards, and has the length of `str`, unshuffles from `i` to the rest of `str`.
   */
  lemma {:induction false} RoundTripFrom(base: string, dictionary: string, str: string, t: string, i: nat)
    requires ValidDictionary(base, dictionary) && '%' !in base
    requires i <= |str| == |t|
    requires t[i..] == ShuffleFrom(base, dictionary, str, i)
    ensures UnshuffleFrom(base, dictionary, t, i) == str[i..]
    decreases |str| - i
  {
    if i < |str| {
      if PercentTriple(str, i) {
        TripleStep(base, dictionary, str, t, i);
        RoundTripFrom(base, dictionary, str, t, i + 3);
      } else {
        CharStep(base, dictionary, str, t, i);
        RoundTripFrom(base, dictionary, str, t, i + 1);
      }
    }
  }

  /** A `%XX` triple of `str` is copied into `t`, and unshuffling `t` copies it back. */
  lemma TripleStep(base: string, dictionary: string, str: string, t: string, i: nat)
    requires ValidDictionary(base, dictionary)
    requires i <= |str| == |t| && PercentTriple(str, i)
    requires t[i..] == ShuffleFrom(base, dictionary, str, i)
    ensures t[i + 3..] == ShuffleFrom(base, dictionary, str, i + 3)
    ensures UnshuffleFrom(base, dictionary, t, i + 3) == str[i + 3..] ==> UnshuffleFrom(base, dictionary, t, i) == str[i..]
  {
    assert str[i..] == str[i..i + 3] + str[i + 3..];
    var rest := ShuffleFrom(base, dictionary, str, i);
    ShuffleFromLength(base, dictionary, str, i + 3);
    assert t[i..i + 3] == rest[..3] == str[i..i + 3];
    assert t[i + 3..] == rest[3..];
    assert PercentTriple(t, i);
  }

  /** Any other character of `str` is shuffled into `t`, and unshuffling `t` there gives it back. */
  lemma CharStep(base: string, dictionary: string, str: string, t: string, i: nat)
    requires ValidDictionary(base, dictionary) && '%' !in base
    requires i < |str| == |t| && !PercentTriple(str, i)
    requires t[i..] == ShuffleFrom(base, dictionary, str, i)
    ensures t[i + 1..] == ShuffleFrom(base, dictionary, str, i + 1)
    ensures UnshuffleFrom(base, dictionary, t, i + 1) == str[i + 1..] ==> UnshuffleFrom(base, dictionary, t, i) == str[i..]
  {
    assert str[i..] == [str[i]] + str[i + 1..];
    var rest := ShuffleFrom(base, dictionary, str, i);
    var piece := ShuffleChar(base, dictionary, str[i], i);
    CharRoundTrip(base, dictionary, str[i], i);
    ShuffleCharPercent(base, dictionary, str[i], i);
    assert t[i] == rest[0] == piece[0];
    assert !PercentTriple(t, i);
    assert t[i + 1..] == rest[1..];
  }

  /** The client headline property: unshuffle(shuffle(s)) == s, percent-escapes included. */
  lemma ClientRoundTrip(dictionary: string, str: string)
    requires IsPermutationOfBase(dictionary)
    requires !StartsWith(str, Marker)
    ensures ClientUnshuffled(dictionary, ClientShuffled(dictionary, str)) == str
  {
    PermutationFacts(dictionary);
    BaseDistinct();
    var body := ShuffleFrom(Base(), dictionary, str, 0);
    ShuffleFromLength(Base(), dictionary, str, 0);
    assert (Marker + body)[..|Marker|] == Marker;
    assert (Marker + body)[|Marker|..] == body;
    RoundTripFrom(Base(), dictionary, str, body, 0);
  }

  /**
   * The shape of the client `shuffle(str)` for an unmarked `str`: the marker, then as many
   * characters as `str` has.
   */
  lemma ClientShuffledLength(dictionary: string, str: string)
    requires ValidDictionary(Base(), dictionary)
    requires !StartsWith(str, Marker)
    ensures StartsWith(ClientShuffled(dictionary, str), Marker)
    ensures |ClientShuffled(dictionary, str)| == |Marker| + |str|
  {
    var body := ShuffleFrom(Base(), dictionary, str, 0);
    ShuffleFromLength(Base(), dictionary, str, 0);
    assert (Marker + body)[..|Marker|] == Marker;
  }

  /**
   * A `%XX` triple the loop reaches is copied verbatim in both directions, and the loop
   * resumes three positions further; a '%' with fewer than two characters after it is an
   * ordinary non-alphabet character and is copied unchanged.
   */
  lemma PercentPassthrough(dictionary: string, str: string, i: nat)
    requires ValidDictionary(Base(), dictionary)
    requires i < |str| && str[i] == '%'
    ensures |str| - i >= 3 ==>
      && ShuffleFrom(Base(), dictionary, str, i) == str[i..i + 3] + ShuffleFrom(Base(), dictionary, str, i + 3)
      && UnshuffleFrom(Base(), dictionary, str, i) == str[i..i + 3] + UnshuffleFrom(Base(), dictionary, str, i + 3)
    ensures |str| - i < 3 ==>
      && ShuffleFrom(Base(), dictionary, str, i) == "%" + ShuffleFrom(Base(), dictionary, str, i + 1)
      && UnshuffleFrom(Base(), dictionary, str, i) == "%" + UnshuffleFrom(Base(), dictionary, str, i + 1)
  {
    BaseDistinct();
    IndexOfFirst(Base(), '%');
    IndexOfFirst(dictionary, '%');
  }

  /** Without any '%' the client cipher agrees with the server cipher on the rest of the string. */
  lemma {:induction false} AgreesWithServerFrom(dictionary: string, str: string, i: nat)
    requires '%' !in str && i <= |str|
    ensures ShuffleUpTo(Base(), dictionary, str, i) + ShuffleFrom(Base(), dictionary, str, i)
         == ShuffleUpTo(Base(), dictionary, str, |str|)
    decreases |str| - i
  {
    if i < |str| {
      assert !PercentTriple(str, i);
      AgreesWithServerFrom(dictionary, str, i + 1);
    }
  }

  /** Strings without '%' are shuffled exactly as the server would shuffle them. */
  lemma AgreesWithServer(dictionary: string, str: string)
    requires '%' !in str
    ensures ClientShuffled(dictionary, str) == Shuffled(dictionary, str)
  {
    if !StartsWith(str, Marker) {
      AgreesWithServerFrom(dictionary, str, 0);
      var body := ShuffleFrom(Base(), dictionary, str, 0);
      assert ShuffleUpTo(Base(), dictionary, str, 0) + body == body;
    }
  }

  /**
   * One turn of the client `shuffle` loop from position `i`, in the form the loop takes it:
   * a triple appended one character at a time, or one shuffled character.
   */
  lemma ShuffleFromStep(base: string, dictionary: string, str: string, i: nat, acc: string)
    requires |base| > 0 && i < |str|
    ensures PercentTriple(str, i) ==>
      acc + [str[i]] + CharAt(str, i + 1) + CharAt(str, i + 2) + ShuffleFrom(base, dictionary, str, i + 3)
        == acc + ShuffleFrom(base, dictionary, str, i)
    ensures !PercentTriple(str, i) ==>
      acc + ShuffleChar(base, dictionary, str[i], i) + ShuffleFrom(base, dictionary, str, i + 1)
        == acc + ShuffleFrom(base, dictionary, str, i)
  {
    if PercentTriple(str, i) {
      var triple := [str[i]] + CharAt(str, i + 1) + CharAt(str, i + 2);
      var rest := ShuffleFrom(base, dictionary, str, i + 3);
      assert triple == str[i..i + 3];
      assert ShuffleFrom(base, dictionary, str, i) == triple + rest;
      assert acc + [str[i]] + CharAt(str, i + 1) + CharAt(str, i + 2) + rest == acc + (triple + rest);
    } else {
      var piece := ShuffleChar(base, dictionary, str[i], i);
      var rest := ShuffleFrom(base, dictionary, str, i + 1);
      assert ShuffleFrom(base, dictionary, str, i) == piece + rest;
      assert acc + piece + rest == acc + (piece + rest);
    }
  }

  /** One turn of the client `unshuffle` loop from position `i`. */
  lemma UnshuffleFromStep(base: string, dictionary: string, str: string, i: nat, acc: string)
    requires |base| > 0 && i < |str|
    ensures PercentTriple(str, i) ==>
      acc + [str[i]] + CharAt(str, i + 1) + CharAt(str, i + 2) + UnshuffleFrom(base, dictionary, str, i + 3)
        == acc + UnshuffleFrom(base, dictionary, str, i)
    ensures !PercentTriple(str, i) ==>
      acc + UnshuffleChar(base, dictionary, str[i], i) + UnshuffleFrom(base, dictionary, str, i + 1)
        == acc + UnshuffleFrom(base, dictionary, str, i)
  {
    if PercentTriple(str, i) {
      var triple := [str[i]] + CharAt(str, i + 1) + CharAt(str, i + 2);
      var rest := UnshuffleFrom(base, dictionary, str, i + 3);
      assert triple == str[i..i + 3];
      assert UnshuffleFrom(base, dictionary, str, i) == triple + rest;
      assert acc + [str[i]] + CharAt(str, i + 1) + CharAt(str, i + 2) + rest == acc + (triple + rest);
    } else {
      var piece := UnshuffleChar(base, dictionary, str[i], i);
      var rest := UnshuffleFrom(base, dictionary, str, i + 1);
      assert UnshuffleFrom(base, dictionary, str, i) == piece + rest;
      assert acc + piece + rest == acc + (piece + rest);
    }
  }

  /** The client StrShuffler class; its dictionary, fetched from the server, never changes. */
  class ClientShuffler {
    const dictionary: string

    constructor (dictionary: string)
      ensures this.dictionary == dictionary
    {
      this.dictionary := dictionary;
    }

    /** The default constructor argument: a freshly generated dictionary. */
    constructor Generated(picks: seq<nat>)
      requires |picks| >= |Base()|
      requires forall j :: 0 <= j < |Base()| ==> picks[j] < |Base()| - j
      ensures IsPermutationOfBase(dictionary)
    {
      var d := GenerateDictionary(picks);
      dictionary := d;
    }

    method Shuffle(str: string) returns (r: string)
      ensures r == ClientShuffled(dictionary, str)
      ensures StartsWith(str, Marker) ==> r == str
      ensures StartsWith(r, Marker)
    {
      if StartsWith(str, Marker) {
        return str;
      }
      var shuffledStr := "";
      var i := 0;
      while i < |str|
        invariant 0 <= i <= |str|
        invariant shuffledStr + ShuffleFrom(Base(), dictionary, str, i) == ShuffleFrom(Base(), dictionary, str, 0)
      {
        var c := CharAt(str, i)[0];
        ShuffleFromStep(Base(), dictionary, str, i, shuffledStr);
        if c == '%' && |str| - i >= 3 {
          shuffledStr := shuffledStr + [c];
          i := i + 1;
          shuffledStr := shuffledStr + CharAt(str, i);
          i := i + 1;
          shuffledStr := shuffledStr + CharAt(str, i);
        } else {
          shuffledStr := shuffledStr + ShuffleChar(Base(), dictionary, c, i);
        }
        i := i + 1;
      }
      r := Marker + shuffledStr;
      assert r[..|Marker|] == Marker;
    }

    method Unshuffle(str: string) returns (r: string)
      ensures r == ClientUnshuffled(dictionary, str)
      ensures !StartsWith(str, Marker) ==> r == str
    {
      if !StartsWith(str, Marker) {
        return str;
      }
      var body := str[|Marker|..];
      var unshuffledStr := "";
      var i := 0;
      while i < |body|
        invariant 0 <= i <= |body|
        invariant unshuffledStr + UnshuffleFrom(Base(), dictionary, body, i) == UnshuffleFrom(Base(), dictionary, body, 0)
      {
        var c := CharAt(body, i)[0];
        UnshuffleFromStep(Base(), dictionary, body, i, unshuffledStr);
        if c == '%' && |body| - i >= 3 {
          unshuffledStr := unshuffledStr + [c];
          i := i + 1;
          unshuffledStr := unshuffledStr + CharAt(body, i);
          i := i + 1;
          unshuffledStr := unshuffledStr + CharAt(body, i);
        } else {
          unshuffledStr := unshuffledStr + UnshuffleChar(Base(), dictionary, c, i);
        }
        i := i + 1;
      }
      return unshuffledStr;
    }
  }
}
