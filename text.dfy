/** Text helpers with the meaning the roster code gets from JavaScript's
    String.prototype.trim, toLowerCase, includes, split and Number's toString. */
module Text {

  /** The code points String.prototype.trim removes: the WhiteSpace and
      LineTerminator productions of ECMAScript (section 12.2 and 12.3 of ECMA-262). */
  predicate IsSpace(c: char) {
    c == '\t' || c == '\n' || c == '\U{B}' || c == '\U{C}' || c == '\r' || c == ' ' ||
    c == '\U{A0}' || c == '\U{1680}' || ('\U{2000}' <= c <= '\U{200A}') ||
    c == '\U{2028}' || c == '\U{2029}' || c == '\U{202F}' || c == '\U{205F}' ||
    c == '\U{3000}' || c == '\U{FEFF}'
  }

  predicate AllSpace(s: string) {
    forall i :: 0 <= i < |s| ==> IsSpace(s[i])
  }

  /** Drops the leading white space. */
  function TrimStart(s: string): (r: string)
    ensures |r| <= |s| && r == s[|s| - |r|..]
    ensures AllSpace(s[..|s| - |r|])
    ensures r == [] || !IsSpace(r[0])
  {
    if s != [] && IsSpace(s[0]) then TrimStart(s[1..]) else s
  }

  /** Drops the trailing white space. */
  function TrimEnd(s: string): (r: string)
    ensures |r| <= |s| && r == s[..|r|]
    ensures AllSpace(s[|r|..])
    ensures r == [] || !IsSpace(r[|r| - 1])
  {
    if s != [] && IsSpace(s[|s| - 1]) then TrimEnd(s[..|s| - 1]) else s
  }

  /** String.prototype.trim: the longest slice of `s` that neither starts nor
      ends with white space, found by cutting white space off both ends. */
  function Trim(s: string): (r: string)
    ensures |r| <= |s|
    ensures r == [] || (!IsSpace(r[0]) && !IsSpace(r[|r| - 1]))
    ensures r == [] <==> AllSpace(s)
  {
    TrimBothEnds(s);
    TrimEnd(TrimStart(s))
  }

  lemma TrimBothEnds(s: string)
    ensures var r := TrimEnd(TrimStart(s));
      (r == [] || (!IsSpace(r[0]) && !IsSpace(r[|r| - 1]))) && (r == [] <==> AllSpace(s))
  {
    if AllSpace(s) {
      TrimStartAllSpace(s);
    } else {
      TrimStartStops(s);
      TrimEndStops(TrimStart(s));
    }
  }

  lemma {:induction false} TrimStartAllSpace(s: string)
    requires AllSpace(s)
    ensures TrimStart(s) == []
    decreases |s|
  {
    if s != [] {
      assert forall i :: 0 <= i < |s[1..]| ==> s[1..][i] == s[i + 1];
      TrimStartAllSpace(s[1..]);
    }
  }

  lemma {:induction false} TrimStartStops(s: string)
    requires !AllSpace(s)
    ensures TrimStart(s) != [] && !IsSpace(TrimStart(s)[0])
    decreases |s|
  {
    if IsSpace(s[0]) {
      var i :| 0 <= i < |s| && !IsSpace(s[i]);
      assert s[1..][i - 1] == s[i];
      TrimStartStops(s[1..]);
    }
  }

  lemma {:induction false} TrimEndStops(t: string)
    requires t != [] && !IsSpace(t[0])
    ensures TrimEnd(t) != [] && TrimEnd(t)[0] == t[0]
    decreases |t|
  {
    if IsSpace(t[|t| - 1]) {
      var u := t[..|t| - 1];
      assert u[0] == t[0];
      TrimEndStops(u);
    }
  }

  lemma {:induction false} TrimStartSpaces(a: string, x: string)
    requires AllSpace(a)
    ensures TrimStart(a + x) == TrimStart(x)
    decreases |a|
  {
    if a == [] {
      assert a + x == x;
    } else {
      assert (a + x)[0] == a[0];
      assert (a + x)[1..] == a[1..] + x;
      TrimStartSpaces(a[1..], x);
    }
  }

  lemma {:induction false} TrimEndSpaces(x: string, b: string)
    requires AllSpace(b)
    ensures TrimEnd(x + b) == TrimEnd(x)
    decreases |b|
  {
    if b == [] {
      assert x + b == x;
    } else {
      var xb := x + b;
      assert xb[|xb| - 1] == b[|b| - 1];
      assert xb[..|xb| - 1] == x + b[..|b| - 1];
      TrimEndSpaces(x, b[..|b| - 1]);
    }
  }

  lemma {:induction false} TrimStartAppend(x: string, b: string)
    requires !AllSpace(x)
    ensures TrimStart(x + b) == TrimStart(x) + b
    decreases |x|
  {
    assert (x + b)[0] == x[0];
    if IsSpace(x[0]) {
      assert (x + b)[1..] == x[1..] + b;
      TrimStartAppend(x[1..], b);
    }
  }

  /** Cutting white space from both ends forgets white space added at either end. */
  lemma TrimPadded(a: string, x: string, b: string)
    requires AllSpace(a) && AllSpace(b)
    ensures Trim(a + x + b) == Trim(x)
  {
    assert a + x + b == a + (x + b);
    TrimStartSpaces(a, x + b);
    if AllSpace(x) {
      TrimStartSpaces(x, b);
      assert b == b + [];
      TrimStartSpaces(b, []);
    } else {
      TrimStartAppend(x, b);
      TrimEndSpaces(TrimStart(x), b);
    }
  }

  /** Trim is idempotent. */
  lemma TrimIdempotent(s: string)
    ensures Trim(Trim(s)) == Trim(s)
  {
    var t := Trim(s);
    assert TrimStart(t) == t;
    assert TrimEnd(t) == t;
  }

  /** A string that neither starts nor ends with white space is its own trim. */
  lemma TrimUnpadded(s: string)
    requires s == [] || (!IsSpace(s[0]) && !IsSpace(s[|s| - 1]))
    ensures Trim(s) == s
  {
  }

  // ---------------------------------------------------------------------------
  // Lower-casing

  /** Capital letters that toLowerCase maps one-for-one: ASCII, Latin-1 and the
      precomposed letters Vietnamese writes with (U+0102, U+0110, U+0128,
      U+0168, U+01A0, U+01AF and the pairs U+1EA0..U+1EF9). */
  predicate IsUpper(c: char) {
    ('A' <= c <= 'Z') ||
    ('\U{C0}' <= c <= '\U{DE}' && c != '\U{D7}') ||
    c == '\U{102}' || c == '\U{110}' || c == '\U{128}' || c == '\U{168}' ||
    c == '\U{1A0}' || c == '\U{1AF}' ||
    ('\U{1EA0}' <= c <= '\U{1EF8}' && (c as int) % 2 == 0)
  }

  function LowerChar(c: char): char {
    if 'A' <= c <= 'Z' || ('\U{C0}' <= c <= '\U{DE}' && c != '\U{D7}') then
      (c as int + 32) as char
    else if IsUpper(c) then
      (c as int + 1) as char
    else
      c
  }

  /** String.prototype.toLowerCase over the letters IsUpper covers. */
  function Lower(s: string): string {
    seq(|s|, i requires 0 <= i < |s| => LowerChar(s[i]))
  }

  /** LowerChar leaves no capital, changes only capitals, and keeps white space. */
  lemma LowerCharFacts(c: char)
    ensures !IsUpper(LowerChar(c))
    ensures !IsUpper(c) ==> LowerChar(c) == c
    ensures IsSpace(LowerChar(c)) <==> IsSpace(c)
  {
  }

  predicate NoUpper(s: string) {
    forall i :: 0 <= i < |s| ==> !IsUpper(s[i])
  }

  /** Text without capitals is left alone by Lower; so Lower is idempotent. */
  lemma LowerNoUpper(s: string)
    requires NoUpper(s)
    ensures Lower(s) == s
  {
    forall i | 0 <= i < |s| ensures Lower(s)[i] == s[i] {
      LowerCharFacts(s[i]);
    }
  }

  lemma LowerIdempotent(s: string)
    ensures Lower(Lower(s)) == Lower(s)
  {
    forall i | 0 <= i < |s| ensures !IsUpper(Lower(s)[i]) {
      LowerCharFacts(s[i]);
    }
    LowerNoUpper(Lower(s));
  }

  lemma LowerAppend(a: string, b: string)
    ensures Lower(a + b) == Lower(a) + Lower(b)
  {
  }

  lemma LowerAllSpace(s: string)
    ensures AllSpace(Lower(s)) <==> AllSpace(s)
  {
    forall i | 0 <= i < |s| ensures IsSpace(Lower(s)[i]) <==> IsSpace(s[i]) {
      LowerCharFacts(s[i]);
    }
  }

  // ---------------------------------------------------------------------------
  // Substrings

  /** String.prototype.includes: `t` occurs in `s` at some position. */
  predicate Contains(s: string, t: string) {
    exists i | 0 <= i <= |s| - |t| :: OccursAt(s, t, i)
  }

  predicate OccursAt(s: string, t: string, i: int) {
    0 <= i <= |s| - |t| && s[i..i + |t|] == t
  }

  /** Some word of `words` occurs in `s`: `words.some(w => s.includes(w))`. */
  predicate ContainsAny(s: string, words: seq<string>) {
    words != [] && (Contains(s, words[0]) || ContainsAny(s, words[1..]))
  }

  lemma {:induction false} ContainsAnyAt(s: string, words: seq<string>, i: int)
    requires 0 <= i < |words| && Contains(s, words[i])
    ensures ContainsAny(s, words)
    decreases i
  {
    if i > 0 {
      assert words[1..][i - 1] == words[i];
      ContainsAnyAt(s, words[1..], i - 1);
    }
  }

  lemma {:induction false} ContainsNone(s: string, words: seq<string>)
    requires forall i :: 0 <= i < |words| ==> !Contains(s, words[i])
    ensures !ContainsAny(s, words)
    decreases |words|
  {
    if words != [] {
      assert forall i :: 0 <= i < |words[1..]| ==> words[1..][i] == words[i + 1];
      ContainsNone(s, words[1..]);
    }
  }

  lemma ContainsAt(s: string, t: string, i: int)
    requires OccursAt(s, t, i)
    ensures Contains(s, t)
  {
  }

  /** A string contains every part it is built from. */
  lemma ContainsPart(a: string, t: string, b: string)
    ensures Contains(a + t + b, t)
  {
    ContainsAt(a + t + b, t, |a|);
  }

  /** Containment is transitive: whatever occurs in a substring occurs in the string. */
  lemma ContainsTransitive(s: string, t: string, u: string)
    requires Contains(s, t) && Contains(t, u)
    ensures Contains(s, u)
  {
    var i :| OccursAt(s, t, i);
    var j :| OccursAt(t, u, j);
    assert OccursAt(s, t, i);
    assert OccursAt(t, u, j);
    assert 0 <= i && i + |t| <= |s| && s[i..i + |t|] == t;
    assert 0 <= j && j + |u| <= |t| && t[j..j + |u|] == u;
    forall k | 0 <= k < |u| ensures s[i + j..i + j + |u|][k] == u[k] {
      assert u[k] == t[j + k] == s[i..i + |t|][j + k];
    }
    ContainsAt(s, u, i + j);
  }

  /** Whatever occurs in a string occurs in any extension of it. */
  lemma ContainsExtended(p: string, t: string, s: string, u: string)
    requires Contains(t, u)
    ensures Contains(t + s, u) && Contains(p + t, u)
  {
    var j :| OccursAt(t, u, j);
    assert OccursAt(t, u, j);
    assert 0 <= j && j + |u| <= |t|;
    assert (t + s)[j..j + |u|] == t[j..j + |u|];
    ContainsAt(t + s, u, j);
    assert (p + t)[|p| + j..|p| + j + |u|] == t[j..j + |u|];
    ContainsAt(p + t, u, |p| + j);
  }

  /** Nothing that holds a character outside an alphabet occurs in text over that alphabet. */
  lemma NotContainsForeign(s: string, t: string, k: int, alphabet: set<char>)
    requires forall i :: 0 <= i < |s| ==> s[i] in alphabet
    requires 0 <= k < |t| && t[k] !in alphabet
    ensures !Contains(s, t)
  {
  }

  // ---------------------------------------------------------------------------
  // Splitting

  /** String.prototype.split with a one-character separator. */
  function Split(s: string, sep: char): (parts: seq<string>)
    ensures |parts| >= 1
    ensures forall k :: 0 <= k < |parts| ==> sep !in parts[k]
    ensures |parts| == Count(s, sep) + 1
  {
    if s == [] then [[]]
    else
      var rest := Split(s[1..], sep);
      if s[0] == sep then [[]] + rest
      else [[s[0]] + rest[0]] + rest[1..]
  }

  /** The number of occurrences of `c` in `s`. */
  function Count(s: string, c: char): nat {
    if s == [] then 0 else (if s[0] == c then 1 else 0) + Count(s[1..], c)
  }

  /** Array.prototype.join with a one-character separator: the inverse of Split. */
  function Join(parts: seq<string>, sep: char): string
    requires |parts| >= 1
  {
    if |parts| == 1 then parts[0] else parts[0] + [sep] + Join(parts[1..], sep)
  }

  lemma {:induction false} JoinSplit(s: string, sep: char)
    ensures Join(Split(s, sep), sep) == s
  {
    if s != [] {
      JoinSplit(s[1..], sep);
      var rest := Split(s[1..], sep);
      if s[0] == sep {
        assert s == [sep] + s[1..];
      } else if |rest| == 1 {
        assert s == [s[0]] + s[1..];
      } else {
        assert Join(rest, sep) == rest[0] + [sep] + Join(rest[1..], sep);
        assert s == [s[0]] + s[1..];
      }
    }
  }

  lemma {:induction false} SplitJoin(parts: seq<string>, sep: char)
    requires |parts| >= 1
    requires forall k :: 0 <= k < |parts| ==> sep !in parts[k]
    ensures Split(Join(parts, sep), sep) == parts
    decreases |parts|, |parts[0]|
  {
    var head := parts[0];
    if head == [] {
      if |parts| > 1 {
        SplitJoin(parts[1..], sep);
        assert Join(parts, sep) == [sep] + Join(parts[1..], sep);
        assert (([sep] + Join(parts[1..], sep))[1..]) == Join(parts[1..], sep);
        assert [[]] + parts[1..] == parts;
      }
    } else {
      var smaller := [head[1..]] + parts[1..];
      assert smaller[1..] == parts[1..];
      assert sep !in head[1..] by { assert forall c :: c in head[1..] ==> c in head; }
      SplitJoin(smaller, sep);
      JoinFirstChar(parts, sep);
      SplitCons(head[0], Join(smaller, sep), sep);
      assert head == [head[0]] + head[1..];
      assert [[head[0]] + head[1..]] + parts[1..] == parts;
    }
  }

  /** Joining parts whose first part is not empty starts with that part's first character. */
  lemma JoinFirstChar(parts: seq<string>, sep: char)
    requires |parts| >= 1 && parts[0] != []
    ensures Join(parts, sep) == [parts[0][0]] + Join([parts[0][1..]] + parts[1..], sep)
  {
    var head, smaller := parts[0], [parts[0][1..]] + parts[1..];
    assert smaller[1..] == parts[1..];
    if |parts| > 1 {
      assert Join(smaller, sep) == head[1..] + [sep] + Join(parts[1..], sep);
    }
  }

  /** Splitting text that starts with a character other than the separator. */
  lemma SplitCons(c: char, t: string, sep: char)
    requires c != sep
    ensures Split([c] + t, sep) == [[c] + Split(t, sep)[0]] + Split(t, sep)[1..]
  {
    assert ([c] + t)[1..] == t;
  }

  // ---------------------------------------------------------------------------
  // Numbers as text

  /** The characters Number.prototype.toString writes for an integer. */
  predicate IsDecimal(c: char) {
    c == '-' || '0' <= c <= '9'
  }

  const DecimalChars: set<char> := set c: char | IsDecimal(c)

  function Digit(d: nat): (c: char)
    requires d < 10
    ensures '0' <= c <= '9'
  {
    "0123456789"[d]
  }

  function Digits(n: nat): (r: string)
    ensures r != []
    ensures forall i :: 0 <= i < |r| ==> '0' <= r[i] <= '9'
  {
    if n < 10 then [Digit(n)] else Digits(n / 10) + [Digit(n % 10)]
  }

  /** Number.prototype.toString for an integer value, in base ten. */
  function NumberText(n: int): (r: string)
    ensures r != []
    ensures forall i :: 0 <= i < |r| ==> IsDecimal(r[i])
  {
    if n < 0 then "-" + Digits(-n) else Digits(n)
  }
}
