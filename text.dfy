/** The JavaScript string operations the components rely on, over strings
    seen as sequences of characters: `trim`, `split` on one character,
    `join`, `includes`, `endsWith` and the ASCII part of `toLowerCase`. */
module Text {

  /** JavaScript's WhiteSpace and LineTerminator characters: exactly what
      `String.prototype.trim` removes. */
  predicate IsWhitespace(c: char) {
    if c <= ' ' then c == ' ' || '\t' <= c <= '\r'
    else if c < '\U{2000}' then c == '\U{A0}' || c == '\U{1680}'
    else c <= '\U{200A}' || c == '\U{2028}' || c == '\U{2029}' || c == '\U{202F}'
         || c == '\U{205F}' || c == '\U{3000}' || c == '\U{FEFF}'
  }

  /** `s.trim().length === 0` */
  predicate IsBlank(s: string) {
    forall i :: 0 <= i < |s| ==> IsWhitespace(s[i])
  }

  /** `s.trimStart()` */
  function TrimStart(s: string): string {
    if s != [] && IsWhitespace(s[0]) then TrimStart(s[1..]) else s
  }

  /** `s.trimEnd()` */
  function TrimEnd(s: string): string {
    if s != [] && IsWhitespace(s[|s| - 1]) then TrimEnd(s[..|s| - 1]) else s
  }

  /** `s.trim()` */
  function Trim(s: string): string {
    TrimEnd(TrimStart(s))
  }

  /** `trimStart` removes whitespace only, and up to the first other character. */
  lemma {:induction false} TrimStartDrops(s: string)
    ensures |TrimStart(s)| <= |s| && TrimStart(s) == s[|s| - |TrimStart(s)|..]
    ensures forall i :: 0 <= i < |s| - |TrimStart(s)| ==> IsWhitespace(s[i])
    ensures TrimStart(s) == [] || !IsWhitespace(TrimStart(s)[0])
  {
    if s != [] && IsWhitespace(s[0]) {
      var t := TrimStart(s[1..]);
      TrimStartDrops(s[1..]);
      assert TrimStart(s) == t;
      forall i | 0 <= i < |s| - |t|
        ensures IsWhitespace(s[i])
      {
        if i > 0 {
          assert s[i] == s[1..][i - 1];
        }
      }
    }
  }

  /** `trimEnd` removes whitespace only, back to the last other character. */
  lemma {:induction false} TrimEndDrops(s: string)
    ensures |TrimEnd(s)| <= |s| && TrimEnd(s) == s[..|TrimEnd(s)|]
    ensures forall i :: |TrimEnd(s)| <= i < |s| ==> IsWhitespace(s[i])
    ensures TrimEnd(s) == [] || !IsWhitespace(TrimEnd(s)[|TrimEnd(s)| - 1])
  {
    if s != [] && IsWhitespace(s[|s| - 1]) {
      var t := TrimEnd(s[..|s| - 1]);
      TrimEndDrops(s[..|s| - 1]);
      assert TrimEnd(s) == t;
      forall i | |t| <= i < |s|
        ensures IsWhitespace(s[i])
      {
        if i < |s| - 1 {
          assert s[i] == s[..|s| - 1][i];
        }
      }
    }
  }

  /** `s.trim()` is empty exactly when `s` is all whitespace. */
  lemma TrimEmptyIffBlank(s: string)
    ensures Trim(s) == [] <==> IsBlank(s)
  {
    TrimStartDrops(s);
    TrimEndDrops(TrimStart(s));
    var t := TrimStart(s);
    if t != [] {
      assert !IsWhitespace(t[0]);
      assert !IsWhitespace(s[|s| - |t|]);
    }
  }

  /** A string that neither starts nor ends with whitespace is its own trim. */
  lemma TrimUnchanged(s: string)
    requires s == [] || (!IsWhitespace(s[0]) && !IsWhitespace(s[|s| - 1]))
    ensures Trim(s) == s
  {
  }

  /** `s.split(sep)` for a one-character separator: the pieces between the
      occurrences of `sep`, always at least one. */
  function SplitOn(s: string, sep: char): (parts: seq<string>)
    ensures |parts| >= 1
  {
    if s == [] then [""]
    else
      var rest := SplitOn(s[1..], sep);
      if s[0] == sep then [""] + rest else [[s[0]] + rest[0]] + rest[1..]
  }

  /** There is one piece more than there are separators, and no piece holds one. */
  lemma {:induction false} SplitCount(s: string, sep: char)
    ensures |SplitOn(s, sep)| == multiset(s)[sep] + 1
    ensures forall p | p in SplitOn(s, sep) :: sep !in p
  {
    if s != [] {
      var rest := SplitOn(s[1..], sep);
      SplitCount(s[1..], sep);
      assert s == [s[0]] + s[1..];
      assert multiset(s) == multiset{s[0]} + multiset(s[1..]);
      if s[0] != sep {
        assert forall p | p in rest[1..] :: p in rest;
      }
    }
  }

  /** `parts.join(sep)` */
  function Join(parts: seq<string>, sep: string): string {
    if |parts| == 0 then ""
    else if |parts| == 1 then parts[0]
    else parts[0] + sep + Join(parts[1..], sep)
  }

  /** `s.includes(sub)` */
  predicate Contains(s: string, sub: string) {
    exists i | 0 <= i <= |s| - |sub| :: OccursAt(s, sub, i)
  }

  predicate OccursAt(s: string, sub: string, i: int) {
    0 <= i <= |s| - |sub| && s[i..i + |sub|] == sub
  }

  /** `s.endsWith(suffix)` */
  predicate EndsWith(s: string, suffix: string) {
    |suffix| <= |s| && s[|s| - |suffix|..] == suffix
  }

  /** `toLowerCase` on one character, restricted to the ASCII letters. */
  function ToLower(c: char): char {
    if 'A' <= c <= 'Z' then (c as int + 32) as char else c
  }

  function LowerAscii(s: string): (r: string)
    ensures |r| == |s|
    ensures forall i :: 0 <= i < |s| ==> r[i] == ToLower(s[i])
  {
    seq(|s|, i requires 0 <= i < |s| => ToLower(s[i]))
  }

  /** `s` with every occurrence of `c` deleted. */
  function Without(s: string, c: char): (r: string)
    ensures c !in r
    ensures c !in s ==> r == s
  {
    if s == [] then []
    else if s[0] == c then Without(s[1..], c)
    else [s[0]] + Without(s[1..], c)
  }

  /** The decimal numeral of `n`, as `String(n)` writes it. */
  function Decimal(n: nat): (r: string)
    ensures r != []
    ensures forall i :: 0 <= i < |r| ==> '0' <= r[i] <= '9'
  {
    var d := [(('0' as int) + n % 10) as char];
    if n < 10 then d else Decimal(n / 10) + d
  }

  // ---------------------------------------------------------------------
  // split and join undo each other

  lemma {:induction false} JoinCons(x: string, y: string, tail: seq<string>, sep: string)
    ensures Join([x + y] + tail, sep) == x + Join([y] + tail, sep)
  {
    if |tail| > 0 {
      assert ([x + y] + tail)[1..] == tail;
      assert ([y] + tail)[1..] == tail;
    }
  }

  /** Joining the pieces of a split with the separator gives the string back. */
  lemma {:induction false} JoinSplit(s: string, sep: char)
    ensures Join(SplitOn(s, sep), [sep]) == s
  {
    if s != [] {
      var rest := SplitOn(s[1..], sep);
      JoinSplit(s[1..], sep);
      if s[0] == sep {
        assert ([""] + rest)[1..] == rest;
      } else {
        assert rest == [rest[0]] + rest[1..];
        JoinCons([s[0]], rest[0], rest[1..], [sep]);
      }
    }
  }

  lemma {:induction false} SplitPrefix(p: string, rest: string, sep: char)
    requires sep !in p
    ensures SplitOn(p + rest, sep) == [p + SplitOn(rest, sep)[0]] + SplitOn(rest, sep)[1..]
  {
    if p != [] {
      var r := SplitOn(rest, sep);
      assert (p + rest)[0] == p[0] != sep;
      assert (p + rest)[1..] == p[1..] + rest;
      SplitPrefix(p[1..], rest, sep);
      var tail := SplitOn(p[1..] + rest, sep);
      assert tail == [p[1..] + r[0]] + r[1..];
      assert tail[0] == p[1..] + r[0] && tail[1..] == r[1..];
      assert SplitOn(p + rest, sep) == [[p[0]] + tail[0]] + tail[1..];
      assert [p[0]] + (p[1..] + r[0]) == p + r[0];
    } else {
      var r := SplitOn(rest, sep);
      assert p + rest == rest;
      assert r == [r[0]] + r[1..];
      assert p + r[0] == r[0];
    }
  }

  lemma SplitSeparator(tail: string, sep: char)
    ensures SplitOn([sep] + tail, sep) == [""] + SplitOn(tail, sep)
  {
    assert ([sep] + tail)[1..] == tail;
  }

  /** Splitting a join on a separator that no piece contains gives the pieces back. */
  lemma {:induction false} SplitJoin(parts: seq<string>, sep: char)
    requires |parts| >= 1
    requires forall p | p in parts :: sep !in p
    ensures SplitOn(Join(parts, [sep]), sep) == parts
  {
    if |parts| == 1 {
      SplitPrefix(parts[0], "", sep);
      assert parts[0] + "" == parts[0];
    } else {
      var tail := Join(parts[1..], [sep]);
      assert Join(parts, [sep]) == parts[0] + ([sep] + tail);
      assert sep !in parts[0];
      assert forall q | q in parts[1..] :: sep !in q;
      SplitJoin(parts[1..], sep);
      SplitPrefix(parts[0], [sep] + tail, sep);
      SplitSeparator(tail, sep);
      var after := SplitOn([sep] + tail, sep);
      assert after[0] == "" && after[1..] == parts[1..];
      assert parts[0] + "" == parts[0];
      assert parts == [parts[0]] + parts[1..];
    }
  }

  /** A character that is in no part and not in the separator is not in the join. */
  lemma {:induction false} JoinAvoids(parts: seq<string>, sep: string, c: char)
    requires c !in sep
    requires forall p | p in parts :: c !in p
    ensures c !in Join(parts, sep)
  {
    if |parts| > 1 {
      assert forall p | p in parts[1..] :: c !in p;
      JoinAvoids(parts[1..], sep, c);
    }
  }

  /** A join starts with its first part. */
  lemma JoinStartsWith(parts: seq<string>, sep: string)
    requires |parts| >= 1
    ensures |parts[0]| <= |Join(parts, sep)| && Join(parts, sep)[..|parts[0]|] == parts[0]
  {
    if |parts| > 1 {
      assert Join(parts, sep) == parts[0] + (sep + Join(parts[1..], sep));
    }
  }

  /** `toLowerCase` is idempotent. */
  lemma LowerAsciiIdempotent(s: string)
    ensures LowerAscii(LowerAscii(s)) == LowerAscii(s)
  {
  }
}
