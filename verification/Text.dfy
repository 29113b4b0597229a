/** String operations shared by the printers and parsers. */
module Text {
  import opened Common

  /** s.replace(c, r) for a one-character pattern. */
  function Replace(s: string, c: char, r: string): string {
    if s == "" then "" else (if s[0] == c then r else [s[0]]) + Replace(s[1..], c, r)
  }

  lemma {:induction false} ReplaceConcat(s: string, t: string, c: char, r: string)
    ensures Replace(s + t, c, r) == Replace(s, c, r) + Replace(t, c, r)
  {
    if s == "" {
      assert s + t == t;
    } else {
      assert (s + t)[1..] == s[1..] + t;
      ReplaceConcat(s[1..], t, c, r);
    }
  }

  /** s.split(d): always at least one piece. */
  function Split(s: string, d: char): (r: seq<string>)
    ensures |r| >= 1
  {
    if s == "" then [""]
    else
      var rest := Split(s[1..], d);
      if s[0] == d then [""] + rest else [[s[0]] + rest[0]] + rest[1..]
  }

  /** d.join(parts) */
  function Join(parts: seq<string>, d: char): string {
    if parts == [] then ""
    else if |parts| == 1 then parts[0]
    else parts[0] + [d] + Join(parts[1..], d)
  }

  lemma {:induction false} SplitHead(a: string, d: char, t: string)
    requires d !in a
    ensures Split(a + [d] + t, d) == [a] + Split(t, d)
    ensures Split(a, d) == [a]
  {
    if a == "" {
      assert a + [d] + t == [d] + t;
      assert ([d] + t)[1..] == t;
    } else {
      assert (a + [d] + t)[1..] == a[1..] + [d] + t;
      SplitHead(a[1..], d, t);
      assert [a[0]] + a[1..] == a;
    }
  }

  /** Splitting undoes joining when no part holds the separator. */
  lemma {:induction false} SplitJoin(parts: seq<string>, d: char)
    requires |parts| >= 1 && forall i :: 0 <= i < |parts| ==> d !in parts[i]
    ensures Split(Join(parts, d), d) == parts
  {
    if |parts| == 1 {
      SplitHead(parts[0], d, "");
    } else {
      SplitHead(parts[0], d, Join(parts[1..], d));
      SplitJoin(parts[1..], d);
    }
  }

  /** The string after a prefix. */
  function After(s: string, prefix: string): Option<string> {
    if prefix <= s then Some(s[|prefix|..]) else None
  }

  lemma AfterPrefix(prefix: string, s: string)
    ensures After(prefix + s, prefix) == Some(s)
  {
    assert (prefix + s)[|prefix|..] == s;
  }

  /** The code-point order Python sorts strings by. */
  predicate LessEq(a: string, b: string) {
    if a == "" then true
    else if b == "" then false
    else if a[0] != b[0] then a[0] < b[0]
    else LessEq(a[1..], b[1..])
  }

  lemma LessEqTotal(a: string, b: string)
    ensures LessEq(a, b) || LessEq(b, a)
  {
  }

  lemma {:induction false} LessEqAntisymmetric(a: string, b: string)
    requires LessEq(a, b) && LessEq(b, a)
    ensures a == b
  {
    if a == "" || b == "" {
    } else {
      LessEqAntisymmetric(a[1..], b[1..]);
      assert a == [a[0]] + a[1..] && b == [b[0]] + b[1..];
    }
  }

  lemma LessEqTransitive(a: string, b: string, c: string)
    requires LessEq(a, b) && LessEq(b, c)
    ensures LessEq(a, c)
  {
  }

  lemma SplitStep(c: char, s: string, d: char)
    ensures var pieces := Split(s, d);
            Split([c] + s, d) == if c == d then [""] + pieces else [[c] + pieces[0]] + pieces[1..]
  {
    assert ([c] + s)[1..] == s;
  }

  lemma FirstPieceGrows(c: char, front: seq<string>, back: seq<string>)
    requires front != []
    ensures [[c] + (front + back)[0]] + (front + back)[1..] == ([[c] + front[0]] + front[1..]) + back
    ensures [""] + (front + back) == ([""] + front) + back
  {
  }

  /** Splitting a concatenation at a separator. */
  lemma {:induction false} SplitConcat(a: string, b: string, d: char)
    ensures Split(a + [d] + b, d) == Split(a, d) + Split(b, d)
  {
    if a == "" {
      assert a + [d] + b == [d] + b;
      SplitStep(d, b, d);
    } else {
      var c, rest := a[0], a[1..];
      assert a == [c] + rest && a + [d] + b == [c] + (rest + [d] + b);
      SplitConcat(rest, b, d);
      SplitStep(c, rest, d);
      SplitStep(c, rest + [d] + b, d);
      FirstPieceGrows(c, Split(rest, d), Split(b, d));
    }
  }

  /** The position of the first c. */
  function Find(s: string, c: char): (r: Option<nat>)
    ensures r.Some? ==> r.value < |s| && s[r.value] == c && c !in s[..r.value]
    ensures r.None? ==> c !in s
  {
    if s == "" then None
    else if s[0] == c then Some(0)
    else
      match Find(s[1..], c)
      case None => None
      case Some(k) => assert s[..k + 1] == [s[0]] + s[1..][..k]; Some(k + 1)
  }

  /** The position of the last c. */
  function FindLast(s: string, c: char): (r: Option<nat>)
    ensures r.Some? ==> r.value < |s| && s[r.value] == c && c !in s[r.value + 1..]
    ensures r.None? ==> c !in s
  {
    if s == "" then None
    else if s[|s| - 1] == c then Some(|s| - 1)
    else
      match FindLast(s[..|s| - 1], c)
      case None => assert s == s[..|s| - 1] + [s[|s| - 1]]; None
      case Some(k) => assert s[k + 1..] == s[..|s| - 1][k + 1..] + [s[|s| - 1]]; Some(k)
  }

  /** The characters str.strip() removes. */
  predicate IsSpace(c: char) {
    || '\t' <= c <= '\r' || '\U{1c}' <= c <= ' ' || c == '\U{85}' || c == '\U{a0}' || c == '\U{1680}'
    || '\U{2000}' <= c <= '\U{200a}' || c == '\U{2028}' || c == '\U{2029}' || c == '\U{202f}'
    || c == '\U{205f}' || c == '\U{3000}'
  }

  /** s.strip() */
  function Strip(s: string): string {
    if s == "" then ""
    else if IsSpace(s[0]) then Strip(s[1..])
    else if IsSpace(s[|s| - 1]) then Strip(s[..|s| - 1])
    else s
  }

  /** s.strip('"') */
  function StripQuotes(s: string): string {
    if s == "" then ""
    else if s[0] == '"' then StripQuotes(s[1..])
    else if s[|s| - 1] == '"' then StripQuotes(s[..|s| - 1])
    else s
  }

  /** Neither end is a space. */
  predicate Trim(s: string) {
    s != "" && !IsSpace(s[0]) && !IsSpace(s[|s| - 1])
  }

  /** s.lower() on ASCII letters. */
  function Lower(s: string): string {
    if s == "" then ""
    else [if 'A' <= s[0] <= 'Z' then s[0] - 'A' + 'a' else s[0]] + Lower(s[1..])
  }

  predicate Digits(s: string) {
    s != "" && forall i :: 0 <= i < |s| ==> '0' <= s[i] <= '9'
  }

  function HexDigit(n: nat): char
    requires n < 16
  {
    if n < 10 then '0' + n as char else 'a' + (n - 10) as char
  }

  function HexValue(c: char): Option<nat> {
    if '0' <= c <= '9' then Some((c - '0') as nat)
    else if 'a' <= c <= 'f' then Some((c - 'a') as nat + 10)
    else None
  }

  lemma HexRoundTrip(n: nat)
    requires n < 16
    ensures HexValue(HexDigit(n)) == Some(n)
  {
  }

  /** A character of a text other than the separator is in one of the pieces. */
  lemma {:induction false} PieceHolds(s: string, d: char, c: char) returns (i: nat)
    requires c in s && c != d
    ensures i < |Split(s, d)| && c in Split(s, d)[i]
  {
    var rest := Split(s[1..], d);
    if s[0] == c {
      i := 0;
    } else {
      assert c in s[1..];
      var k := PieceHolds(s[1..], d, c);
      i := if s[0] == d then k + 1 else k;
    }
  }

  /** A joined text has only the characters of its parts and the separator. */
  lemma {:induction false} JoinHolds(parts: seq<string>, d: char, c: char)
    requires c in Join(parts, d) && c != d
    ensures exists i :: 0 <= i < |parts| && c in parts[i]
  {
    if |parts| <= 1 || c in parts[0] {
    } else {
      JoinHolds(parts[1..], d, c);
      var i :| 0 <= i < |parts[1..]| && c in parts[1..][i];
      assert parts[i + 1] == parts[1..][i];
    }
  }
}
