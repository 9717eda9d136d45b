/**
 * The URL "shuffle" cipher of the server (src/util/StrShuffler.js): a positional
 * substitution over a fixed 64-character alphabet, marked by the prefix "_rhs".
 * The alphabet, the marker, `mod`, `indexOf` and `charAt` defined here are shared
 * with the client copies of the cipher (module ClientShuffler).
 */
module StrShuffler {

  /**
   * The character at position `i` of StrShuffler.baseDictionary: the ten digits, the
   * upper-case letters, the lower-case letters, then '~' and '-'.
   */
  function BaseChar(i: int): char {
    if 0 <= i < 10 then (48 + i) as char
    else if 10 <= i < 36 then (65 + (i - 10)) as char
    else if 36 <= i < 62 then (97 + (i - 36)) as char
    else if i == 62 then '~'
    else '-'
  }

  /** StrShuffler.baseDictionary, 64 characters long (BaseLiteral spells it out). */
  function Base(): string {
    seq(64, i => BaseChar(i))
  }

  /** StrShuffler.shuffledIndicator. */
  const Marker: string := "_rhs"

  /** JavaScript's `%` truncates toward zero. */
  function JsRem(n: int, m: int): int
    requires m > 0
  {
    if n >= 0 then n % m else -((-n) % m)
  }

  /** `mod(n, m) = ((n % m) + m) % m`, with JavaScript's `%`. */
  function Mod(n: int, m: int): int
    requires m > 0
  {
    JsRem(JsRem(n, m) + m, m)
  }

  /** `String.prototype.startsWith`. */
  predicate StartsWith(s: string, prefix: string) {
    |prefix| <= |s| && s[..|prefix|] == prefix
  }

  /** `String.prototype.indexOf` for one character: the first position, or -1. */
  function IndexOf(s: string, c: char): (r: int)
    ensures -1 <= r < |s|
    ensures 0 <= r ==> s[r] == c
  {
    if |s| == 0 then -1
    else if s[0] == c then 0
    else
      var r := IndexOf(s[1..], c);
      if r == -1 then -1 else r + 1
  }

  /** `String.prototype.charAt`: the empty string outside the bounds. */
  function CharAt(s: string, k: int): (r: string)
    ensures 0 <= k < |s| ==> r == [s[k]]
    ensures !(0 <= k < |s|) ==> r == ""
  {
    if 0 <= k < |s| then [s[k]] else ""
  }

  /**
   * What the loop of `shuffle` appends for the character `c` at position `i`, over the
   * alphabet `base` (always Base() in the program).
   */
  function ShuffleChar(base: string, dictionary: string, c: char, i: int): string
    requires |base| > 0
  {
    var idx := IndexOf(base, c);
    if idx == -1 then [c] else CharAt(dictionary, Mod(idx + i, |base|))
  }

  /** What the loop of `unshuffle` appends for the character `c` at position `i`. */
  function UnshuffleChar(base: string, dictionary: string, c: char, i: int): string
    requires |base| > 0
  {
    var idx := IndexOf(dictionary, c);
    if idx == -1 then [c] else CharAt(base, Mod(idx - i, |base|))
  }

  /** `shuffledStr` once the loop of `shuffle` has handled the first `n` characters of `str`. */
  function ShuffleUpTo(base: string, dictionary: string, str: string, n: nat): string
    requires |base| > 0 && n <= |str|
  {
    if n == 0 then ""
    else ShuffleUpTo(base, dictionary, str, n - 1) + ShuffleChar(base, dictionary, str[n - 1], n - 1)
  }

  /** `unshuffledStr` once the loop of `unshuffle` has handled the first `n` characters of `str`. */
  function UnshuffleUpTo(base: string, dictionary: string, str: string, n: nat): string
    requires |base| > 0 && n <= |str|
  {
    if n == 0 then ""
    else UnshuffleUpTo(base, dictionary, str, n - 1) + UnshuffleChar(base, dictionary, str[n - 1], n - 1)
  }

  /** The value `shuffle(str)` returns. */
  function Shuffled(dictionary: string, str: string): (r: string)
    ensures StartsWith(r, Marker)
    ensures StartsWith(str, Marker) ==> r == str
  {
    if StartsWith(str, Marker) then str else Marker + ShuffleUpTo(Base(), dictionary, str, |str|)
  }

  /** The value `unshuffle(str)` returns. */
  function Unshuffled(dictionary: string, str: string): (r: string)
    ensures !StartsWith(str, Marker) ==> r == str
  {
    if !StartsWith(str, Marker) then str
    else
      var body := str[|Marker|..];
      UnshuffleUpTo(Base(), dictionary, body, |body|)
  }

  /** A dictionary as generateDictionary produces it: a permutation of the base alphabet. */
  ghost predicate IsPermutationOfBase(dictionary: string) {
    multiset(dictionary) == multiset(Base())
  }

  ghost predicate Distinct(s: string) {
    forall i, j :: 0 <= i < j < |s| ==> s[i] != s[j]
  }

  /**
   * What the cipher needs of a dictionary over the alphabet `base`: as many characters as
   * the alphabet, all different and all from the alphabet (PermutationFacts: every
   * permutation of Base() qualifies).
   */
  ghost predicate ValidDictionary(base: string, dictionary: string) {
    && |base| > 0
    && |dictionary| == |base|
    && Distinct(dictionary)
    && forall k :: 0 <= k < |dictionary| ==> dictionary[k] in base
  }

  /** The alphabet, character by character, is the string literal of the source. */
  lemma BaseLiteral()
    ensures Base() == "0123456789" + "ABCDEFGHIJKLMNOPQRSTUVWXYZ" + "abcdefghijklmnopqrstuvwxyz" + "~-"
  {
    var digits, upper, lower := "0123456789", "ABCDEFGHIJKLMNOPQRSTUVWXYZ", "abcdefghijklmnopqrstuvwxyz";
    var lit := digits + upper + lower + "~-";
    assert forall i :: 0 <= i < 10 ==> digits[i] as int == 48 + i;
    assert forall i :: 0 <= i < 26 ==> upper[i] as int == 65 + i;
    assert forall i :: 0 <= i < 26 ==> lower[i] as int == 97 + i;
    forall i | 0 <= i < 64 ensures lit[i] == Base()[i] {
      if i < 10 {
        assert lit[i] == digits[i];
      } else if i < 36 {
        assert lit[i] == upper[i - 10];
      } else if i < 62 {
        assert lit[i] == lower[i - 36];
      }
    }
    assert lit == Base();
  }

  /** The alphabet has no repeated character and no '%' (the client cipher relies on the latter). */
  lemma BaseDistinct()
    ensures Distinct(Base())
    ensures '%' !in Base()
  {
  }

  lemma MulAwayFromZero(d: int, m: int)
    requires m > 0
    ensures d >= 1 ==> d * m >= m
    ensures d <= -1 ==> d * m <= -m
  {
    if d >= 1 {
      assert d * m == (d - 1) * m + m;
    } else if d <= -1 {
      assert d * m == -((-d - 1) * m) - m;
    }
  }

  lemma DivMod(n: int, m: int)
    requires m > 0
    ensures n == (n / m) * m + n % m
  {
  }

  /** The Euclidean remainder, characterised by a quotient. */
  lemma EuclidUnique(n: int, m: int, q: int, r: int)
    requires m > 0 && 0 <= r < m && n == q * m + r
    ensures n % m == r
  {
    var q0, r0 := n / m, n % m;
    assert n == q0 * m + r0;
    var d := q - q0;
    assert d * m == q * m - q0 * m;
    assert d * m == r0 - r;
    MulAwayFromZero(d, m);
  }

  lemma JsRemFacts(n: int, m: int)
    requires m > 0
    ensures -m < JsRem(n, m) < m
    ensures exists q :: n == q * m + JsRem(n, m)
  {
    if n >= 0 {
      assert n == (n / m) * m + n % m;
    } else {
      var q := (-n) / m;
      assert -n == q * m + (-n) % m;
      assert n == (-q) * m + JsRem(n, m);
    }
  }

  /** Whatever the sign of `n`, `mod` yields the Euclidean remainder, so it lies in [0, m). */
  lemma ModIsEuclidean(n: int, m: int)
    requires m > 0
    ensures Mod(n, m) == n % m
    ensures 0 <= Mod(n, m) < m
  {
    JsRemFacts(n, m);
    var x := JsRem(n, m);
    var q :| n == q * m + x;
    var y := (x + m) % m;
    assert x + m == ((x + m) / m) * m + y;
    EuclidUnique(n, m, q - 1 + (x + m) / m, y);
  }

  /** indexOf answers -1 exactly for absent characters, and otherwise finds the first occurrence. */
  lemma {:induction false} IndexOfFirst(s: string, c: char)
    ensures IndexOf(s, c) == -1 <==> c !in s
    ensures 0 <= IndexOf(s, c) ==> c !in s[..IndexOf(s, c)]
  {
    if |s| > 0 && s[0] != c {
      IndexOfFirst(s[1..], c);
      var r := IndexOf(s[1..], c);
      assert s == [s[0]] + s[1..];
      if r != -1 {
        assert s[..r + 1] == [s[0]] + s[1..][..r];
      }
    }
  }

  /** In a sequence without repetitions, indexOf finds the position of each element. */
  lemma IndexOfDistinct(s: string, k: nat)
    requires Distinct(s) && k < |s|
    ensures IndexOf(s, s[k]) == k
  {
    IndexOfFirst(s, s[k]);
    var r := IndexOf(s, s[k]);
    assert forall j :: 0 <= j < r ==> s[..r][j] == s[j];
  }

  /** In a sequence without repetitions every element occurs once. */
  lemma {:induction false} DistinctMultiplicity(s: string, c: char)
    requires Distinct(s)
    ensures multiset(s)[c] <= 1
  {
    if s != [] {
      var last := |s| - 1;
      assert s == s[..last] + [s[last]];
      assert Distinct(s[..last]);
      DistinctMultiplicity(s[..last], c);
      if s[last] == c {
        assert c !in s[..last];
      }
    }
  }

  /** A repeated element occurs at least twice. */
  lemma RepeatedMultiplicity(s: string, i: nat, j: nat)
    requires i < j < |s| && s[i] == s[j]
    ensures multiset(s)[s[i]] >= 2
  {
    assert s == s[..i] + [s[i]] + s[i + 1..j] + [s[j]] + s[j + 1..];
  }

  /** Every permutation of the alphabet is a valid dictionary, with exactly the alphabet's characters. */
  lemma PermutationFacts(dictionary: string)
    requires IsPermutationOfBase(dictionary)
    ensures ValidDictionary(Base(), dictionary)
  {
    BaseDistinct();
    assert |dictionary| == |multiset(dictionary)| == |multiset(Base())| == |Base()|;
    forall i, j | 0 <= i < j < |dictionary| ensures dictionary[i] != dictionary[j] {
      if dictionary[i] == dictionary[j] {
        RepeatedMultiplicity(dictionary, i, j);
        DistinctMultiplicity(Base(), dictionary[i]);
      }
    }
    forall k | 0 <= k < |dictionary| ensures dictionary[k] in Base() {
      assert dictionary[k] in multiset(dictionary);
    }
  }

  /** Shifting by `i` and back by `i` modulo `m` returns to the start. */
  lemma ModShift(k: int, i: int, m: int)
    requires 0 <= k < m
    ensures ((k + i) % m - i) % m == k
  {
    var x := (k + i) % m;
    var q := (k + i) / m;
    DivMod(k + i, m);
    assert (-q) * m == -(q * m);
    EuclidUnique(x - i, m, -q, k);
  }

  /**
   * One character: an alphabet character with index `idx` at position `i` becomes the
   * dictionary character at (idx + i) mod |base|; any other character is kept.
   */
  lemma ShuffleCharSpec(base: string, dictionary: string, c: char, i: int)
    requires ValidDictionary(base, dictionary)
    ensures c in base ==>
      ShuffleChar(base, dictionary, c, i) == [dictionary[(IndexOf(base, c) + i) % |base|]]
    ensures c !in base ==> ShuffleChar(base, dictionary, c, i) == [c]
  {
    IndexOfFirst(base, c);
    var idx := IndexOf(base, c);
    if idx != -1 {
      var m := Mod(idx + i, |base|);
      ModIsEuclidean(idx + i, |base|);
      assert m == (idx + i) % |base|;
    }
  }

  /** One character survives shuffling followed by unshuffling at the same position. */
  lemma CharRoundTrip(base: string, dictionary: string, c: char, i: int)
    requires ValidDictionary(base, dictionary)
    ensures |ShuffleChar(base, dictionary, c, i)| == 1
    ensures UnshuffleChar(base, dictionary, ShuffleChar(base, dictionary, c, i)[0], i) == [c]
  {
    IndexOfFirst(base, c);
    var k := IndexOf(base, c);
    if k == -1 {
      IndexOfFirst(dictionary, c);
      assert ShuffleChar(base, dictionary, c, i) == [c];
    } else {
      var m := Mod(k + i, |base|);
      ModIsEuclidean(k + i, |base|);
      assert ShuffleChar(base, dictionary, c, i) == [dictionary[m]];
      IndexOfDistinct(dictionary, m);
      ModShift(k, i, |base|);
      ModIsEuclidean(m - i, |base|);
      assert UnshuffleChar(base, dictionary, dictionary[m], i) == CharAt(base, k);
    }
  }

  /** shuffle emits exactly one character per input character. */
  lemma ShuffleCharLength(base: string, dictionary: string, c: char, i: int)
    requires |base| > 0 && |dictionary| == |base|
    ensures |ShuffleChar(base, dictionary, c, i)| == 1
  {
    ModIsEuclidean(IndexOf(base, c) + i, |base|);
  }

  /** unshuffle emits exactly one character per input character. */
  lemma UnshuffleCharLength(base: string, dictionary: string, c: char, i: int)
    requires |base| > 0
    ensures |UnshuffleChar(base, dictionary, c, i)| == 1
  {
    ModIsEuclidean(IndexOf(dictionary, c) - i, |base|);
  }

  /** The first `n` characters shuffle one by one, each at its own position. */
  lemma {:induction false} ShuffleUpToAt(base: string, dictionary: string, str: string, n: nat)
    requires ValidDictionary(base, dictionary)
    requires n <= |str|
    ensures |ShuffleUpTo(base, dictionary, str, n)| == n
    ensures forall k :: 0 <= k < n ==>
      ShuffleUpTo(base, dictionary, str, n)[k] == ShuffleChar(base, dictionary, str[k], k)[0]
  {
    if n > 0 {
      ShuffleUpToAt(base, dictionary, str, n - 1);
      ShuffleCharLength(base, dictionary, str[n - 1], n - 1);
      var prev := ShuffleUpTo(base, dictionary, str, n - 1);
      var piece := ShuffleChar(base, dictionary, str[n - 1], n - 1);
      forall k | 0 <= k < n ensures (prev + piece)[k] == ShuffleChar(base, dictionary, str[k], k)[0] {
        if k < n - 1 {
          assert (prev + piece)[k] == prev[k];
        }
      }
    }
  }

  /** The first `n` characters unshuffle one by one, each at its own position. */
  lemma {:induction false} UnshuffleUpToAt(base: string, dictionary: string, str: string, n: nat)
    requires |base| > 0
    requires n <= |str|
    ensures |UnshuffleUpTo(base, dictionary, str, n)| == n
    ensures forall k :: 0 <= k < n ==>
      UnshuffleUpTo(base, dictionary, str, n)[k] == UnshuffleChar(base, dictionary, str[k], k)[0]
  {
    if n > 0 {
      UnshuffleUpToAt(base, dictionary, str, n - 1);
      UnshuffleCharLength(base, dictionary, str[n - 1], n - 1);
      var prev := UnshuffleUpTo(base, dictionary, str, n - 1);
      var piece := UnshuffleChar(base, dictionary, str[n - 1], n - 1);
      forall k | 0 <= k < n ensures (prev + piece)[k] == UnshuffleChar(base, dictionary, str[k], k)[0] {
        if k < n - 1 {
          assert (prev + piece)[k] == prev[k];
        }
      }
    }
  }

  /** Unshuffling the first `n` shuffled characters gives back those characters. */
  lemma UpToRoundTrip(base: string, dictionary: string, str: string)
    requires ValidDictionary(base, dictionary)
    ensures |ShuffleUpTo(base, dictionary, str, |str|)| == |str|
    ensures
      var body := ShuffleUpTo(base, dictionary, str, |str|);
      UnshuffleUpTo(base, dictionary, body, |body|) == str
  {
    var body := ShuffleUpTo(base, dictionary, str, |str|);
    ShuffleUpToAt(base, dictionary, str, |str|);
    UnshuffleUpToAt(base, dictionary, body, |body|);
    forall k | 0 <= k < |str| ensures UnshuffleUpTo(base, dictionary, body, |body|)[k] == str[k] {
      CharRoundTrip(base, dictionary, str[k], k);
    }
  }

  /**
   * The shape of `shuffle(str)` for an unmarked `str`: the marker, then exactly one
   * character per input character, the one ShuffleChar gives for its position.
   */
  lemma ShuffledSpec(dictionary: string, str: string)
    requires ValidDictionary(Base(), dictionary)
    requires !StartsWith(str, Marker)
    ensures |Shuffled(dictionary, str)| == |Marker| + |str|
    ensures forall k :: 0 <= k < |str| ==>
      Shuffled(dictionary, str)[|Marker| + k] == ShuffleChar(Base(), dictionary, str[k], k)[0]
  {
    var body := ShuffleUpTo(Base(), dictionary, str, |str|);
    ShuffleUpToAt(Base(), dictionary, str, |str|);
    assert Shuffled(dictionary, str) == Marker + body;
    forall k | 0 <= k < |str| ensures (Marker + body)[|Marker| + k] == ShuffleChar(Base(), dictionary, str[k], k)[0] {
      assert (Marker + body)[|Marker| + k] == body[k];
    }
  }

  /** The headline property: with a permutation dictionary, unshuffle(shuffle(s)) == s. */
  lemma RoundTrip(dictionary: string, str: string)
    requires IsPermutationOfBase(dictionary)
    requires !StartsWith(str, Marker)
    ensures Unshuffled(dictionary, Shuffled(dictionary, str)) == str
  {
    PermutationFacts(dictionary);
    var body := ShuffleUpTo(Base(), dictionary, str, |str|);
    assert (Marker + body)[..|Marker|] == Marker;
    assert (Marker + body)[|Marker|..] == body;
    UpToRoundTrip(Base(), dictionary, str);
  }

  /** The output of shuffle is marked, so shuffling it again changes nothing. */
  lemma ShuffleIdempotent(dictionary: string, str: string)
    ensures Shuffled(dictionary, Shuffled(dictionary, str)) == Shuffled(dictionary, str)
  {
    if !StartsWith(str, Marker) {
      var body := ShuffleUpTo(Base(), dictionary, str, |str|);
      assert (Marker + body)[..|Marker|] == Marker;
    }
  }

  /** Splicing position `k` out of `s` removes exactly one occurrence of `s[k]`. */
  lemma SpliceMultiset(s: string, k: nat)
    requires k < |s|
    ensures multiset(s) == multiset(s[..k] + s[k + 1..]) + multiset{s[k]}
  {
    assert s == s[..k] + [s[k]] + s[k + 1..];
  }

  /**
   * generateDictionary: repeatedly splices a randomly chosen character out of the
   * remaining alphabet. `picks[j]` stands for `Math.floor(Math.random() * split.length)`
   * in round `j`, so it lies below the number of characters still left.
   */
  method GenerateDictionary(picks: seq<nat>) returns (dictionary: string)
    requires |picks| >= |Base()|
    requires forall j :: 0 <= j < |Base()| ==> picks[j] < |Base()| - j
    ensures IsPermutationOfBase(dictionary)
  {
    dictionary := "";
    var split := Base();
    var j := 0;
    while |split| > 0
      invariant 0 <= j <= |Base()|
      invariant |split| == |Base()| - j
      invariant multiset(dictionary) + multiset(split) == multiset(Base())
    {
      var k := picks[j];
      SpliceMultiset(split, k);
      dictionary := dictionary + [split[k]];
      split := split[..k] + split[k + 1..];
      j := j + 1;
    }
  }

  /** One shuffler; its dictionary is fixed at construction. */
  class Shuffler {
    const dictionary: string

    constructor (dictionary: string)
      ensures this.dictionary == dictionary
    {
      this.dictionary := dictionary;
    }

    /** The default constructor argument: a freshly generated dictionary. */
    constructor Generated(picks: seq<nat>)
      requires |picks| >= |Base()|
      requires forall j :: 0 <= j < |Base()| ==> picks[j] < |Base()| - j
      ensures IsPermutationOfBase(dictionary)
    {
      var d := GenerateDictionary(picks);
      dictionary := d;
    }

    method Shuffle(str: string) returns (r: string)
      ensures r == Shuffled(dictionary, str)
      ensures StartsWith(r, Marker)
    {
      if StartsWith(str, Marker) {
        return str;
      }
      var shuffledStr := "";
      var i := 0;
      while i < |str|
        invariant 0 <= i <= |str|
        invariant shuffledStr == ShuffleUpTo(Base(), dictionary, str, i)
      {
        shuffledStr := shuffledStr + ShuffleChar(Base(), dictionary, CharAt(str, i)[0], i);
        i := i + 1;
      }
      r := Marker + shuffledStr;
      assert r[..|Marker|] == Marker;
    }

    method Unshuffle(str: string) returns (r: string)
      ensures r == Unshuffled(dictionary, str)
      ensures !StartsWith(str, Marker) ==> r == str
    {
      if !StartsWith(str, Marker) {
        return str;
      }
      var body := str[|Marker|..];
      var unshuffledStr := "";
      var i := 0;
      while i < |body|
        invariant 0 <= i <= |body|
        invariant unshuffledStr == UnshuffleUpTo(Base(), dictionary, body, i)
      {
        unshuffledStr := unshuffledStr + UnshuffleChar(Base(), dictionary, CharAt(body, i)[0], i);
        i := i + 1;
      }
      return unshuffledStr;
    }
  }
}
