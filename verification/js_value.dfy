/** The slice of JavaScript value semantics the services depend on:
    truthiness (`!x`, `Boolean(x)`, `a || b`), strict equality, property
    access on plain objects, `String.prototype.trim` and string length in
    UTF-16 code units. */
module JsValue {

  /** A JavaScript value. Numbers are reals (with NaN apart, and no -0,
      which behaves like 0 for everything modelled here). Objects and
      arrays are opaque and compared by identity `ref`. */
  datatype JValue =
    | JUndef
    | JNull
    | JBool(b: bool)
    | JNum(n: real)
    | JNaN
    | JStr(s: string)
    | JObj(ref: nat)

  /** A plain object: its own enumerable properties. */
  type Record = map<string, JValue>

  /** ToBoolean: the value `!!v`. */
  predicate Truthy(v: JValue) {
    match v
    case JUndef => false
    case JNull => false
    case JBool(b) => b
    case JNum(n) => n != 0.0
    case JNaN => false
    case JStr(s) => s != ""
    case JObj(_) => true
  }

  /** `a === b`: same type and value, NaN equal to nothing. */
  predicate StrictEq(a: JValue, b: JValue) {
    a == b && !a.JNaN?
  }

  /** Property read `o.key`; a missing property reads as `undefined`. */
  function Get(o: Record, key: string): JValue {
    if key in o then o[key] else JUndef
  }

  /** `o.key !== undefined`. */
  predicate Supplied(o: Record, key: string) {
    Get(o, key) != JUndef
  }

  /** The process environment: variable names to string values. */
  type Env = map<string, string>

  /** `process.env[name]`: a string, or `undefined` when unset. */
  function EnvGet(env: Env, name: string): JValue {
    if name in env then JStr(env[name]) else JUndef
  }

  /** `a || b`: the first operand if it is truthy, else the second. */
  function Or(a: JValue, b: JValue): JValue {
    if Truthy(a) then a else b
  }

  /** WhiteSpace and LineTerminator code points, the set `trim` strips. */
  predicate IsWhiteSpace(c: char) {
    || c == '\t' || c == '\n' || c == '\U{000B}' || c == '\U{000C}' || c == '\r'
    || c == ' ' || c == '\U{00A0}' || c == '\U{1680}'
    || ('\U{2000}' <= c <= '\U{200A}')
    || c == '\U{2028}' || c == '\U{2029}' || c == '\U{202F}' || c == '\U{205F}'
    || c == '\U{3000}' || c == '\U{FEFF}'
  }

  /** Every character is white space (vacuously so for ""). */
  predicate Blank(s: string) {
    forall k | 0 <= k < |s| :: IsWhiteSpace(s[k])
  }

  /** Drops leading white space: the result is the suffix of `s` that
      starts at its first non-white-space character. */
  function TrimStart(s: string): (r: string)
    ensures |r| <= |s| && r == s[|s| - |r|..]
    ensures forall k | 0 <= k < |s| - |r| :: IsWhiteSpace(s[k])
    ensures |r| > 0 ==> !IsWhiteSpace(r[0])
  {
    if |s| > 0 && IsWhiteSpace(s[0]) then TrimStart(s[1..]) else s
  }

  /** Drops trailing white space: the result is the prefix of `s` that
      ends at its last non-white-space character. */
  function TrimEnd(s: string): (r: string)
    ensures |r| <= |s| && r == s[..|r|]
    ensures forall k | |r| <= k < |s| :: IsWhiteSpace(s[k])
    ensures |r| > 0 ==> !IsWhiteSpace(r[|r| - 1])
  {
    if |s| > 0 && IsWhiteSpace(s[|s| - 1]) then TrimEnd(s[..|s| - 1]) else s
  }

  /** `s.trim()`. */
  function Trim(s: string): string {
    TrimEnd(TrimStart(s))
  }

  /** `r` is `s[i..j]` with only white space outside it and none at its
      own two ends. */
  ghost predicate TrimmedAt(r: string, s: string, i: int, j: int) {
    && 0 <= i <= j <= |s|
    && r == s[i..j]
    && (forall k | 0 <= k < i :: IsWhiteSpace(s[k]))
    && (forall k | j <= k < |s| :: IsWhiteSpace(s[k]))
    && (|r| > 0 ==> !IsWhiteSpace(r[0]) && !IsWhiteSpace(r[|r| - 1]))
  }

  /** `r` is `s` with all leading and trailing white space removed. */
  ghost predicate TrimmedFrom(r: string, s: string) {
    exists i, j :: TrimmedAt(r, s, i, j)
  }

  /** White space in front of a string that starts with a non-white-space
      character is exactly what `TrimStart` removes. */
  lemma {:induction false} TrimStartAfterBlank(ws: string, x: string)
    requires Blank(ws)
    requires |x| > 0 && !IsWhiteSpace(x[0])
    ensures TrimStart(ws + x) == x
  {
    if |ws| == 0 {
      assert ws + x == x;
    } else {
      assert (ws + x)[0] == ws[0];
      assert (ws + x)[1..] == ws[1..] + x;
      TrimStartAfterBlank(ws[1..], x);
    }
  }

  lemma TrimIsTrimmedFrom(s: string)
    ensures TrimmedFrom(Trim(s), s)
  {
    var t := TrimStart(s);
    var r := TrimEnd(t);
    var i := |s| - |t|;
    var j := i + |r|;
    assert r == s[i..j] by {
      assert t == s[i..];
      assert r == t[..|r|];
    }
    forall k | j <= k < |s| ensures IsWhiteSpace(s[k]) {
      assert s[k] == t[k - i];
    }
    assert TrimmedAt(r, s, i, j);
  }

  /** Trimming is determined: at most one string is `s` trimmed. */
  lemma TrimmedFromUnique(r1: string, r2: string, s: string)
    requires TrimmedFrom(r1, s) && TrimmedFrom(r2, s)
    ensures r1 == r2
  {
    var i1, j1 :| TrimmedAt(r1, s, i1, j1);
    var i2, j2 :| TrimmedAt(r2, s, i2, j2);
    // A non-empty result starts at the first non-white-space character
    // and ends after the last one.
    if |r1| > 0 {
      assert !IsWhiteSpace(s[i1]) && !IsWhiteSpace(s[j1 - 1]);
    }
    if |r2| > 0 {
      assert !IsWhiteSpace(s[i2]) && !IsWhiteSpace(s[j2 - 1]);
    }
  }

  /** `Trim` agrees with the declarative description, in both directions. */
  lemma TrimCharacterized(r: string, s: string)
    ensures Trim(s) == r <==> TrimmedFrom(r, s)
  {
    TrimIsTrimmedFrom(s);
    if TrimmedFrom(r, s) {
      TrimmedFromUnique(r, Trim(s), s);
    }
  }

  /** A string trims to "" exactly when it is all white space. */
  lemma TrimEmptyIff(s: string)
    ensures Trim(s) == "" <==> Blank(s)
  {
    TrimIsTrimmedFrom(s);
    var r := Trim(s);
    var i, j :| TrimmedAt(r, s, i, j);
    if |r| > 0 {
      assert !IsWhiteSpace(s[i]);
    }
  }

  /** Trimming twice is trimming once. */
  lemma TrimIdempotent(s: string)
    ensures Trim(Trim(s)) == Trim(s)
  {
    var r := Trim(s);
    TrimIsTrimmedFrom(s);
    assert TrimmedAt(r, r, 0, |r|);
    TrimCharacterized(r, r);
  }

  /** Number of UTF-16 code units encoding `c`. */
  function CodeUnits(c: char): nat {
    if c as int > 0xFFFF then 2 else 1
  }

  /** `s.length`: JavaScript counts UTF-16 code units, so a character
      outside the Basic Multilingual Plane counts twice. */
  function Utf16Length(s: string): (n: nat)
    ensures |s| <= n <= 2 * |s|
  {
    if |s| == 0 then 0 else CodeUnits(s[0]) + Utf16Length(s[1..])
  }

  lemma {:induction false} Utf16LengthAppend(a: string, b: string)
    ensures Utf16Length(a + b) == Utf16Length(a) + Utf16Length(b)
  {
    if |a| == 0 {
      assert a + b == b;
    } else {
      assert (a + b)[1..] == a[1..] + b;
      Utf16LengthAppend(a[1..], b);
    }
  }

  /** Removing characters never lengthens a string. */
  lemma Utf16LengthInfix(s: string, i: nat, j: nat)
    requires i <= j <= |s|
    ensures Utf16Length(s[i..j]) <= Utf16Length(s)
  {
    assert s == s[..i] + s[i..j] + s[j..];
    Utf16LengthAppend(s[..i] + s[i..j], s[j..]);
    Utf16LengthAppend(s[..i], s[i..j]);
  }

  lemma TrimUtf16Length(s: string)
    ensures Utf16Length(Trim(s)) <= Utf16Length(s)
  {
    TrimIsTrimmedFrom(s);
    var r := Trim(s);
    var i, j :| TrimmedAt(r, s, i, j);
    Utf16LengthInfix(s, i, j);
  }
}
