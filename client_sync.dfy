/**
 * The `localStorage` synchronisation of the injected client script: the list of keys
 * changed since the last upload, the update it compiles from them, the sync timestamp
 * kept in the page's own storage, and the session id the script reads from the URL path.
 *
 * The requests to the server are not part of this model: the data a sync answers with is
 * a parameter, and the update sent is the value `CompileUpdate` returns.
 */
module ClientSync {
  import opened Wrappers

  const TimestampKey := "rammerhead_synctimestamp"

  /** The characters a leading run is made of: the digits of a radix, or letters and digits. */
  datatype CharClass = Digits(radix: nat) | Alnum

  /** Whether `c` belongs to the class. */
  predicate Accepts(cls: CharClass, c: char) {
    match cls
    case Digits(radix) => IsDigit(c, radix)
    case Alnum => IsAlnum(c)
  }

  /** The longest prefix of `s` whose characters all belong to `cls`. */
  function LeadingRun(s: string, cls: CharClass): (r: string)
    ensures |r| <= |s|
    ensures forall i :: 0 <= i < |r| ==> r[i] == s[i] && Accepts(cls, r[i])
    ensures |r| == |s| || !Accepts(cls, s[|r|])
  {
    if |s| == 0 || !Accepts(cls, s[0]) then ""
    else
      var rest := LeadingRun(s[1..], cls);
      assert forall i :: 1 <= i < |rest| + 1 ==> ([s[0]] + rest)[i] == s[1..][i - 1];
      [s[0]] + rest
  }

  /** A run of accepted characters is its own leading run, and so is any such run followed by a rejected character. */
  lemma {:induction false} LeadingRunOf(s: string, t: string, cls: CharClass)
    requires forall i :: 0 <= i < |s| ==> Accepts(cls, s[i])
    requires |t| == 0 || !Accepts(cls, t[0])
    ensures LeadingRun(s + t, cls) == s
  {
    if |s| > 0 {
      assert (s + t)[1..] == s[1..] + t;
      LeadingRunOf(s[1..], t, cls);
    } else {
      assert s + t == t;
    }
  }

  // ---------------------------------------------------------------------------------------
  // parseInt and the string form of a number

  /** The white space `parseInt` skips before the number. */
  predicate IsSpace(c: char) {
    c == ' ' || c == '\t' || c == '\n' || c == '\r' || c == '\U{000B}' || c == '\U{000C}'
    || c == '\U{00A0}' || c == '\U{FEFF}' || c == '\U{2028}' || c == '\U{2029}'
  }

  /** `s` without its leading white space. */
  function TrimStart(s: string): (r: string)
    ensures |r| <= |s|
    ensures |r| == 0 || !IsSpace(r[0])
  {
    if |s| > 0 && IsSpace(s[0]) then TrimStart(s[1..]) else s
  }

  /** The value of a digit character in base 36, if it is one. */
  function DigitValue(c: char): (r: Option<nat>)
    ensures r.Some? ==> r.value < 36
  {
    if '0' <= c <= '9' then Some(c as int - '0' as int)
    else if 'a' <= c <= 'z' then Some(c as int - 'a' as int + 10)
    else if 'A' <= c <= 'Z' then Some(c as int - 'A' as int + 10)
    else None
  }

  /** Shifting a value up by one digit keeps it non-negative. */
  lemma {:induction false} ScaledNonNegative(value: nat, radix: nat)
    ensures 0 <= value * radix
  {
    if value > 0 {
      ScaledNonNegative(value - 1, radix);
      assert value * radix == (value - 1) * radix + radix;
    }
  }

  /** Whether `c` is a digit of `radix`. */
  predicate IsDigit(c: char, radix: nat) {
    DigitValue(c).Some? && DigitValue(c).value < radix
  }

  /** The value of a run of digits of `radix`, most significant first. */
  function DigitsValue(digits: string, radix: nat): nat
    requires forall i :: 0 <= i < |digits| ==> IsDigit(digits[i], radix)
  {
    if |digits| == 0 then 0
    else
      var last := digits[|digits| - 1];
      assert IsDigit(last, radix);
      var rest := DigitsValue(digits[..|digits| - 1], radix);
      assert 0 <= rest * radix by { ScaledNonNegative(rest, radix); }
      rest * radix + DigitValue(last).value
  }

  /** The digits after the sign: a `0x` or `0X` prefix switches to base 16; an empty run of digits is `NaN`. */
  function ParseUnsigned(u: string): Option<nat> {
    var hex := |u| >= 2 && u[0] == '0' && (u[1] == 'x' || u[1] == 'X');
    var radix := if hex then 16 else 10;
    var digits := LeadingRun(if hex then u[2..] else u, Digits(radix));
    if |digits| == 0 then None else Some(DigitsValue(digits, radix))
  }

  /** What `parseInt` reads once the white space is skipped: one optional sign, then the digits. */
  function ParseSigned(t: string): Option<int> {
    if |t| > 0 && (t[0] == '-' || t[0] == '+') then
      match ParseUnsigned(t[1..])
      case None => None
      case Some(value) => if t[0] == '-' then Some(0 - value) else Some(value)
    else
      match ParseUnsigned(t)
      case None => None
      case Some(value) => Some(value)
  }

  /**
   * `parseInt(s)` without a radix: leading white space is skipped, then one sign, then the
   * longest run of digits gives the value; `NaN` is `None`.
   */
  function ParseInt(s: string): Option<int> {
    ParseSigned(TrimStart(s))
  }

  /** The decimal digit of a value below ten. */
  function DigitChar(d: nat): (c: char)
    requires d < 10
    ensures '0' <= c <= '9' && IsDigit(c, 10) && DigitValue(c) == Some(d)
  {
    ('0' as int + d) as char
  }

  /** The decimal form of a non-negative integer, without leading zeros. */
  function Decimal(n: nat): (s: string)
    ensures |s| > 0 && forall i :: 0 <= i < |s| ==> '0' <= s[i] <= '9' && IsDigit(s[i], 10)
    ensures n >= 10 ==> s[0] != '0'
  {
    if n < 10 then [DigitChar(n)] else Decimal(n / 10) + [DigitChar(n % 10)]
  }

  /** The decimal form reads back as the number it was written from. */
  lemma {:induction false} DecimalValue(n: nat)
    ensures DigitsValue(Decimal(n), 10) == n
  {
    if n >= 10 {
      var s := Decimal(n);
      assert s[..|s| - 1] == Decimal(n / 10);
      DecimalValue(n / 10);
    }
  }

  /** A value of the sync code that `!` and string conversion treat differently: missing, a number or a string. */
  datatype JsValue = Undefined | Number(n: int) | Text(s: string)

  /** `!value` is false: the value is not `undefined`, `0` or `""`. */
  predicate Truthy(v: JsValue) {
    match v
    case Undefined => false
    case Number(n) => n != 0
    case Text(s) => s != ""
  }

  /** The string a value becomes when it is stored or given to `parseInt`; integers print in decimal. */
  function ToJsString(v: JsValue): string {
    match v
    case Undefined => "undefined"
    case Number(n) => if n < 0 then "-" + Decimal(-n) else Decimal(n)
    case Text(s) => s
  }

  /** A run of decimal digits, read after the sign, is its value in base 10. */
  lemma ParseUnsignedDigits(d: string)
    requires |d| > 0 && forall i :: 0 <= i < |d| ==> IsDigit(d[i], 10)
    ensures ParseUnsigned(d) == Some(DigitsValue(d, 10))
  {
    assert !(|d| >= 2 && d[0] == '0' && (d[1] == 'x' || d[1] == 'X')) by {
      if |d| >= 2 {
        assert IsDigit(d[1], 10);
      }
    }
    assert LeadingRun(d, Digits(10)) == d by {
      LeadingRunOf(d, "", Digits(10));
      assert d + "" == d;
    }
  }

  /** The decimal form of a number, read after the sign, is that number. */
  lemma ParseUnsignedDecimal(n: nat)
    ensures ParseUnsigned(Decimal(n)) == Some(n)
  {
    DecimalValue(n);
    ParseUnsignedDigits(Decimal(n));
  }

  /** Text that starts with neither white space nor a sign is parsed as an unsigned number. */
  lemma ParseIntUnsigned(u: string, v: nat)
    requires |u| > 0 && !IsSpace(u[0]) && u[0] != '-' && u[0] != '+'
    requires ParseUnsigned(u) == Some(v)
    ensures ParseInt(u) == Some(v as int)
  {
    assert TrimStart(u) == u;
  }

  /** After a minus sign, the unsigned number that follows is negated. */
  lemma ParseIntMinus(u: string, v: nat)
    requires ParseUnsigned(u) == Some(v)
    ensures ParseInt("-" + u) == Some(0 - v)
  {
    assert TrimStart("-" + u) == "-" + u;
    assert ("-" + u)[1..] == u;
  }

  /** The decimal form of a number parses to it. */
  lemma ParseIntDecimal(n: nat)
    ensures ParseInt(Decimal(n)) == Some(n)
  {
    DecimalValue(n);
    ParseIntDigits(Decimal(n));
  }

  /** A run of decimal digits parses to its value. */
  lemma ParseIntDigits(d: string)
    requires |d| > 0 && forall i :: 0 <= i < |d| ==> IsDigit(d[i], 10)
    ensures ParseInt(d) == Some(DigitsValue(d, 10))
  {
    ParseUnsignedDigits(d);
    DecimalDigit(d[0]);
    assert !IsSpace(d[0]) && d[0] != '-' && d[0] != '+';
    ParseIntUnsigned(d, DigitsValue(d, 10));
  }

  /** The digits of base 10 are the characters `0` to `9`. */
  lemma DecimalDigit(c: char)
    requires IsDigit(c, 10)
    ensures '0' <= c <= '9'
  {
    assert !('a' <= c <= 'z') && !('A' <= c <= 'Z');
  }

  /** The decimal form of a number after a minus sign parses to the negated number. */
  lemma ParseIntMinusDecimal(n: nat)
    ensures ParseInt("-" + Decimal(n)) == Some(0 - n)
  {
    ParseUnsignedDecimal(n);
    ParseIntMinus(Decimal(n), n);
  }

  /** A negative number converted to a string parses back to itself. */
  lemma ParseIntNegativeNumber(n: int)
    requires n < 0
    ensures ParseInt(ToJsString(Number(n))) == Some(n)
  {
    ParseIntMinusDecimal(-n);
  }

  /** A number that is not negative converted to a string parses back to itself. */
  lemma ParseIntNonNegativeNumber(n: int)
    requires n >= 0
    ensures ParseInt(ToJsString(Number(n))) == Some(n)
  {
    ParseIntDecimal(n);
  }

  /** `parseInt` of a number given as a number gives it back. */
  lemma ParseIntNumber(n: int)
    ensures ParseInt(ToJsString(Number(n))) == Some(n)
  {
    if n < 0 {
      ParseIntNegativeNumber(n);
    } else {
      ParseIntNonNegativeNumber(n);
    }
  }

  /** A missing value parses to `NaN`. */
  lemma ParseIntUndefined()
    ensures ParseInt(ToJsString(Undefined)) == None
  {
    assert TrimStart("undefined") == "undefined";
  }

  // ---------------------------------------------------------------------------------------
  // The session id in the URL

  /** A letter or digit: the characters `/[a-z0-9]/i` accepts. */
  predicate IsAlnum(c: char) {
    'a' <= c <= 'z' || 'A' <= c <= 'Z' || '0' <= c <= '9'
  }

  /** The session id the script reads from the path: the run of letters and digits after the first character. */
  function SessionIdOfPath(pathname: string): (r: Option<string>)
    ensures r.Some? <==> |pathname| >= 2 && IsAlnum(pathname[1])
    ensures r.Some? ==>
      && 1 + |r.value| <= |pathname| && r.value == pathname[1..1 + |r.value|]
      && (forall i :: 0 <= i < |r.value| ==> IsAlnum(r.value[i]))
      && (1 + |r.value| == |pathname| || !IsAlnum(pathname[1 + |r.value|]))
  {
    var rest := if |pathname| == 0 then "" else pathname[1..];
    var run := LeadingRun(rest, Alnum);
    if |run| == 0 then None else Some(run)
  }

  /** On a proxied path `/<id>/<url>` the id read is the id of the session. */
  lemma SessionIdOfProxyPath(id: string, rest: string)
    requires |id| > 0 && forall i :: 0 <= i < |id| ==> IsAlnum(id[i])
    requires |rest| == 0 || rest[0] == '/'
    ensures SessionIdOfPath("/" + id + rest) == Some(id)
  {
    assert ("/" + id + rest)[1..] == id + rest;
    LeadingRunOf(id, rest, Alnum);
  }

  // ---------------------------------------------------------------------------------------
  // Change tracking

  /** Each key once. */
  predicate Distinct(keys: seq<string>) {
    forall i, j :: 0 <= i < j < |keys| ==> keys[i] != keys[j]
  }

  /** A storage item as the proxied storage answers it: `undefined` when it is not set. */
  function Item(storage: map<string, string>, key: string): Option<string> {
    if key in storage then Some(storage[key]) else None
  }

  /** The update object built from the first keys of the list, one member per key. */
  function Updates(keys: seq<string>, storage: map<string, string>): map<string, Option<string>> {
    if |keys| == 0 then map[]
    else Updates(keys[..|keys| - 1], storage)[keys[|keys| - 1] := Item(storage, keys[|keys| - 1])]
  }

  /** The update holds exactly the recorded keys, each with its current value in the storage. */
  lemma {:induction false} UpdatesExactly(keys: seq<string>, storage: map<string, string>)
    ensures Updates(keys, storage).Keys == set i | 0 <= i < |keys| :: keys[i]
    ensures forall k :: k in Updates(keys, storage) ==> Updates(keys, storage)[k] == Item(storage, k)
  {
    if |keys| > 0 {
      var init := keys[..|keys| - 1];
      UpdatesExactly(init, storage);
      assert (set i | 0 <= i < |keys| :: keys[i]) == (set i | 0 <= i < |init| :: init[i]) + {keys[|keys| - 1]};
    }
  }

  /** The synchronisation state of one page. */
  class LocalStorageSync {
    /** The keys changed since the last update was compiled, in order of first change. */
    var keyChanges: seq<string>
    /** Set while a sync with the server overwrites the storage. */
    var isSyncing: bool
    /** The page's proxied `localStorage`. */
    var storage: map<string, string>
    /** The item under `TimestampKey` in the unproxied storage, as a string. */
    var timestamp: Option<string>

    predicate Valid()
      reads this
    {
      Distinct(keyChanges)
    }

    constructor (storage: map<string, string>, timestamp: Option<string>)
      ensures Valid() && keyChanges == [] && !isSyncing
      ensures this.storage == storage && this.timestamp == timestamp
    {
      keyChanges := [];
      isSyncing := false;
      this.storage := storage;
      this.timestamp := timestamp;
    }

    /** The change listener: a key is recorded once, and not at all while a sync is running. */
    method OnChange(key: string)
      requires Valid()
      modifies this`keyChanges
      ensures Valid()
      ensures keyChanges == if isSyncing || key in old(keyChanges) then old(keyChanges) else old(keyChanges) + [key]
    {
      if isSyncing {
        return;
      }
      if key !in keyChanges {
        keyChanges := keyChanges + [key];
      }
    }

    /**
     * `compileUpdate()`: `null` when no key was recorded; otherwise each recorded key with
     * its current value, and the record starts afresh.
     */
    method CompileUpdate() returns (r: Option<map<string, Option<string>>>)
      modifies this`keyChanges
      ensures keyChanges == []
      ensures r.None? <==> old(keyChanges) == []
      ensures r.Some? ==> r.value == Updates(old(keyChanges), storage)
    {
      if |keyChanges| == 0 {
        return None;
      }
      var updates: map<string, Option<string>> := map[];
      var i := 0;
      while i < |keyChanges|
        invariant 0 <= i <= |keyChanges|
        invariant updates == Updates(keyChanges[..i], storage)
      {
        assert keyChanges[..i + 1][..i] == keyChanges[..i];
        updates := updates[keyChanges[i] := Item(storage, keyChanges[i])];
        i := i + 1;
      }
      assert keyChanges[..i] == keyChanges;
      keyChanges := [];
      r := Some(updates);
    }

    /**
     * The overwrite step of a sync: the storage is cleared and refilled from the server's
     * data, and none of these changes is recorded. Data that is not an object throws
     * before anything is cleared, and leaves the sync flag set.
     */
    method Overwrite(data: Option<map<string, string>>) returns (err: Option<JsError>)
      requires Valid()
      modifies this`keyChanges, this`storage, this`isSyncing
      ensures Valid() && keyChanges == old(keyChanges)
      ensures data.None? ==> err == Some(TypeError("data must be an object")) && storage == old(storage) && isSyncing
      ensures data.Some? ==> err == None && storage == data.value && !isSyncing
    {
      isSyncing := true;
      if data.None? {
        return Some(TypeError("data must be an object"));
      }
      var cleared := storage.Keys;
      storage := map[];
      while cleared != {}
        invariant Valid() && isSyncing && keyChanges == old(keyChanges) && storage == map[]
        decreases cleared
      {
        var k :| k in cleared;
        OnChange(k);
        cleared := cleared - {k};
      }
      var rest := data.value.Keys;
      assert data.value.Keys - rest == {};
      while rest != {}
        invariant Valid() && isSyncing && keyChanges == old(keyChanges)
        invariant rest <= data.value.Keys
        invariant storage == map k | k in data.value.Keys - rest :: data.value[k]
        decreases rest
      {
        var k :| k in rest;
        storage := storage[k := data.value[k]];
        OnChange(k);
        rest := rest - {k};
      }
      isSyncing := false;
      err := None;
    }

    /**
     * `updateTimestamp(timestamp)`: a missing timestamp or one that does not parse as an
     * integer throws; any other is stored in its string form.
     */
    method UpdateTimestamp(value: JsValue) returns (err: Option<JsError>)
      modifies this`timestamp
      ensures !Truthy(value) ==> err == Some(TypeError("timestamp must be defined")) && timestamp == old(timestamp)
      ensures Truthy(value) && ParseInt(ToJsString(value)).None? ==>
        err == Some(TypeError("timestamp must be a number. received" + ToJsString(value))) && timestamp == old(timestamp)
      ensures Truthy(value) && ParseInt(ToJsString(value)).Some? ==> err == None && timestamp == Some(ToJsString(value))
    {
      if !Truthy(value) {
        return Some(TypeError("timestamp must be defined"));
      }
      if ParseInt(ToJsString(value)).None? {
        return Some(TypeError("timestamp must be a number. received" + ToJsString(value)));
      }
      timestamp := Some(ToJsString(value));
      err := None;
    }

    /** `getTimestamp()`: the stored timestamp parsed as an integer, `null` when it does not parse. */
    method GetTimestamp() returns (r: Option<int>)
      ensures r == ParseInt(ToJsString(if timestamp.Some? then Text(timestamp.value) else Undefined))
      ensures timestamp.None? ==> r.None?
    {
      var raw := if timestamp.Some? then Text(timestamp.value) else Undefined;
      ParseIntUndefined();
      r := ParseInt(ToJsString(raw));
    }
  }

  /**
   * A numeric timestamp from the server other than zero is accepted, and reading it back
   * gives the same number.
   */
  lemma TimestampRoundTrip(n: int)
    requires n != 0
    ensures Truthy(Number(n)) && ParseInt(ToJsString(Number(n))) == Some(n)
    ensures ParseInt(ToJsString(Text(ToJsString(Number(n))))) == Some(n)
  {
    ParseIntNumber(n);
  }
}
