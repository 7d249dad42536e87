/** The few JavaScript string operations the core relies on:
    `String.prototype.trim` (the whole ECMAScript white-space and line-terminator set),
    `String.prototype.toLowerCase` (on the Latin letters, Vietnamese included),
    `includes` and `startsWith`/`endsWith` on single characters. */
module JsText {
  import Sequences

  /** The characters `trim` removes: ECMAScript WhiteSpace and LineTerminator. */
  predicate IsSpace(c: char) {
    || c == ' ' || c == '\t' || c == '\n' || c == '\r' || c == '\U{000B}' || c == '\U{000C}'
    || c == '\U{00A0}' || c == '\U{1680}' || ('\U{2000}' <= c <= '\U{200A}')
    || c == '\U{2028}' || c == '\U{2029}' || c == '\U{202F}' || c == '\U{205F}'
    || c == '\U{3000}' || c == '\U{FEFF}'
  }

  predicate AllSpace(s: string) {
    forall i :: 0 <= i < |s| ==> IsSpace(s[i])
  }

  /** No whitespace at either end. */
  predicate Trimmed(s: string) {
    s == [] || (!IsSpace(s[0]) && !IsSpace(s[|s| - 1]))
  }

  /** `trimStart`: drops the longest all-space prefix. */
  function TrimStart(s: string): (r: string)
    ensures |r| <= |s| && r == s[|s| - |r|..]
    ensures forall i :: 0 <= i < |s| - |r| ==> IsSpace(s[i])
    ensures r == [] || !IsSpace(r[0])
  {
    if s != [] && IsSpace(s[0]) then
      var r := TrimStart(s[1..]);
      Sequences.DropOfTail(s, |s| - |r|);
      r
    else s
  }

  /** `trimEnd`: drops the longest all-space suffix. */
  function TrimEnd(s: string): (r: string)
    ensures |r| <= |s| && r == s[..|r|]
    ensures forall i :: |r| <= i < |s| ==> IsSpace(s[i])
    ensures r == [] || !IsSpace(r[|r| - 1])
  {
    if s != [] && IsSpace(s[|s| - 1]) then
      var r := TrimEnd(s[..|s| - 1]);
      Sequences.TakeOfInit(s, |r|);
      r
    else s
  }

  /** `trim`: the longest slice of `s` that neither starts nor ends with a space. */
  function Trim(s: string): (r: string)
    ensures Trimmed(r)
    ensures |r| <= |s|
    ensures forall c :: c in r ==> c in s
  {
    var t := TrimStart(s);
    TrimEnd(t)
  }

  /** What `trim` keeps is a slice of `s` with nothing but spaces before and after it. */
  lemma TrimIsSlice(s: string)
    ensures exists i, j :: (0 <= i <= j <= |s| && Trim(s) == s[i..j] &&
                            (forall k :: 0 <= k < i ==> IsSpace(s[k])) &&
                            (forall k :: j <= k < |s| ==> IsSpace(s[k])))
  {
    var t := TrimStart(s);
    var i := |s| - |t|;
    var r := TrimEnd(t);
    Sequences.TakeOfDrop(s, i, |r|);
    TrailingSpaces(s, i, t, r);
    assert Trim(s) == s[i..i + |r|];
  }

  /** The spaces `trimEnd` drops from the suffix `t` of `s` are the last ones of `s`. */
  lemma TrailingSpaces(s: string, i: int, t: string, r: string)
    requires 0 <= i <= |s| && t == s[i..] && r == TrimEnd(t)
    ensures forall k :: i + |r| <= k < |s| ==> IsSpace(s[k])
  {
    forall k | i + |r| <= k < |s| ensures IsSpace(s[k]) {
      assert s[k] == t[k - i];
    }
  }

  lemma TrimOfTrimmed(s: string)
    requires Trimmed(s)
    ensures Trim(s) == s
  {
  }

  lemma {:induction false} TrimIdempotent(s: string)
    ensures Trim(Trim(s)) == Trim(s)
  {
    TrimOfTrimmed(Trim(s));
  }

  /** A string is blank (`!s.trim()`) exactly when every character is a space. */
  lemma BlankIffAllSpace(s: string)
    ensures Trim(s) == [] <==> AllSpace(s)
  {
    var t := TrimStart(s);
    if t != [] {
      assert t[0] == s[|s| - |t|];
      assert !IsSpace(t[0]);
      var r := TrimEnd(t);
    }
  }

  /** The capitals whose small letter lies 32 code points above: A-Z, and the Latin-1
      capitals U+00C0..U+00DE except the multiplication sign U+00D7. */
  predicate ShiftCapital(c: char) {
    ('A' <= c <= 'Z') || ('\U{00C0}' <= c <= '\U{00DE}' && c != '\U{00D7}')
  }

  /** The capitals whose small letter is the next code point: the upper/lower pairs of
      Latin Extended-A (except U+0130, whose lower case is two characters), O-horn and
      U-horn, and Latin Extended Additional, which holds the Vietnamese letters with
      tone marks. */
  predicate PairCapital(c: char) {
    var n := c as int;
    (n % 2 == 0 && (0x100 <= n <= 0x12F || 0x132 <= n <= 0x137 || 0x14A <= n <= 0x177
                    || 0x1E00 <= n <= 0x1E95 || 0x1EA0 <= n <= 0x1EFF))
    || (n % 2 == 1 && (0x139 <= n <= 0x148 || 0x179 <= n <= 0x17E))
    || n == 0x1A0 || n == 0x1AF
  }

  /** The capitals the model lower-cases: the two families above, Y with diaeresis
      (U+0178, lower case U+00FF) and capital sharp s (U+1E9E, lower case U+00DF). */
  predicate IsCapital(c: char) {
    ShiftCapital(c) || PairCapital(c) || c == '\U{0178}' || c == '\U{1E9E}'
  }

  /** `toLowerCase` on one character of the Latin script. */
  function Lower(c: char): (r: char)
    ensures IsCapital(c) ==> r != c && !IsCapital(r)
    ensures !IsCapital(c) ==> r == c
  {
    if ShiftCapital(c) then (c as int + 32) as char
    else if PairCapital(c) then (c as int + 1) as char
    else if c == '\U{0178}' then '\U{00FF}'
    else if c == '\U{1E9E}' then '\U{00DF}'
    else c
  }

  /** Lower-cases the Latin capitals and leaves every other character as it is. */
  function ToLower(s: string): (r: string)
    ensures |r| == |s|
    ensures forall i :: 0 <= i < |s| && 'A' <= s[i] <= 'Z' ==> r[i] == (s[i] as int + 32) as char
    ensures forall i :: 0 <= i < |s| && IsCapital(s[i]) ==> r[i] != s[i] && !IsCapital(r[i])
    ensures forall i :: 0 <= i < |s| && !IsCapital(s[i]) ==> r[i] == s[i]
  {
    seq(|s|, i requires 0 <= i < |s| => Lower(s[i]))
  }

  /** "Đức" and "đức" lower-case alike: the capital D with stroke maps to its small letter,
      and the already small "ức" is kept. */
  lemma ToLowerDuc()
    ensures ToLower("\U{0110}\U{1EE9}c") == "\U{0111}\U{1EE9}c"
    ensures ToLower("\U{0111}\U{1EE9}c") == "\U{0111}\U{1EE9}c"
  {
    var l, u := ToLower("\U{0111}\U{1EE9}c"), ToLower("\U{0110}\U{1EE9}c");
    assert l[0] == u[0] == '\U{0111}';
    assert l[1] == u[1] == '\U{1EE9}';
    assert l[2] == u[2] == 'c';
  }

  /** Lower-casing twice is lower-casing once. */
  lemma ToLowerIdempotent(s: string)
    ensures ToLower(ToLower(s)) == ToLower(s)
  {
  }

  /** `s.startsWith(prefix)`. */
  predicate StartsWith(s: string, prefix: string) {
    |prefix| <= |s| && s[..|prefix|] == prefix
  }

  /** `s.includes(sub)`. */
  predicate Contains(s: string, sub: string)
    decreases |s|
  {
    StartsWith(s, sub) || (s != [] && Contains(s[1..], sub))
  }

  /** Searching for a one-character string finds exactly the characters of `s`. */
  lemma {:induction false} ContainsChar(s: string, c: char)
    ensures Contains(s, [c]) <==> c in s
    decreases |s|
  {
    if s != [] {
      ContainsChar(s[1..], c);
      assert StartsWith(s, [c]) <==> s[0] == c;
      assert c in s <==> s[0] == c || c in s[1..] by { assert s == [s[0]] + s[1..]; }
    }
  }

  /** `s.startsWith('"') && s.endsWith('"')`. */
  predicate QuotedAtBothEnds(s: string) {
    |s| >= 1 && s[0] == '"' && s[|s| - 1] == '"'
  }
}
