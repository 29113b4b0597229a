/** The unit printer of backend/app/systemd/user_units.py and its inverse. */
module UserUnits {
  import opened Common
  import opened Text

  datatype Manifest = Manifest(
    id: string,
    workingDir: seq<Byte>,                  // UTF-8
    command: seq<string>,
    environment: seq<(string, string)>)     // the dict, in insertion order

  // ---------------------------------------------------------------- quoting

  predicate HasControl(s: string) {
    '\n' in s || '\r' in s || '\0' in s
  }

  /** _quote: a chain of replaces, then the quotes. */
  function Quote(value: string, escapeDollar: bool): Option<string> {
    if HasControl(value) then None
    else
      var escaped := Replace(Replace(Replace(value, '\\', "\\\\"), '"', "\\\""), '%', "%%");
      var dollared := if escapeDollar then Replace(escaped, '$', "$$") else escaped;
      Some("\"" + dollared + "\"")
  }

  /** The same text written one character at a time. */
  function EscapeChar(c: char, escapeDollar: bool): string {
    if c == '\\' then "\\\\"
    else if c == '"' then "\\\""
    else if c == '%' then "%%"
    else if c == '$' && escapeDollar then "$$"
    else [c]
  }

  function Escape(value: string, escapeDollar: bool): string {
    if value == "" then "" else EscapeChar(value[0], escapeDollar) + Escape(value[1..], escapeDollar)
  }

  function ReplaceChain(value: string, escapeDollar: bool): string {
    var escaped := Replace(Replace(Replace(value, '\\', "\\\\"), '"', "\\\""), '%', "%%");
    if escapeDollar then Replace(escaped, '$', "$$") else escaped
  }

  lemma ReplaceOne(c: char, d: char, r: string)
    ensures Replace([c], d, r) == if c == d then r else [c]
  {
    assert [c][1..] == "";
    assert r + "" == r && [c] + "" == [c];
  }

  lemma ReplaceTwo(a: char, b: char, d: char, r: string)
    ensures Replace([a, b], d, r) == (if a == d then r else [a]) + (if b == d then r else [b])
  {
    assert [a, b] == [a] + [b];
    ReplaceConcat([a], [b], d, r);
    ReplaceOne(a, d, r);
    ReplaceOne(b, d, r);
  }

  lemma ChainOne(c: char, escapeDollar: bool)
    ensures ReplaceChain([c], escapeDollar) == EscapeChar(c, escapeDollar)
  {
    ReplaceOne(c, '\\', "\\\\");
    if c == '\\' {
      ReplaceTwo('\\', '\\', '"', "\\\"");
      ReplaceTwo('\\', '\\', '%', "%%");
      ReplaceTwo('\\', '\\', '$', "$$");
    } else {
      ReplaceOne(c, '"', "\\\"");
      if c == '"' {
        ReplaceTwo('\\', '"', '%', "%%");
        ReplaceTwo('\\', '"', '$', "$$");
      } else {
        ReplaceOne(c, '%', "%%");
        ReplaceTwo('%', '%', '$', "$$");
        ReplaceOne(c, '$', "$$");
      }
    }
  }

  lemma ChainConcat(s: string, t: string, escapeDollar: bool)
    ensures ReplaceChain(s + t, escapeDollar) == ReplaceChain(s, escapeDollar) + ReplaceChain(t, escapeDollar)
  {
    var s1, t1 := Replace(s, '\\', "\\\\"), Replace(t, '\\', "\\\\");
    var s2, t2 := Replace(s1, '"', "\\\""), Replace(t1, '"', "\\\"");
    ReplaceConcat(s, t, '\\', "\\\\");
    ReplaceConcat(s1, t1, '"', "\\\"");
    ReplaceConcat(s2, t2, '%', "%%");
    ReplaceConcat(Replace(s2, '%', "%%"), Replace(t2, '%', "%%"), '$', "$$");
  }

  /** The chain of replaces never escapes its own output: it equals the single pass. */
  lemma {:induction false} ChainIsOnePass(value: string, escapeDollar: bool)
    ensures ReplaceChain(value, escapeDollar) == Escape(value, escapeDollar)
  {
    if value == "" {
    } else {
      assert value == [value[0]] + value[1..];
      ChainConcat([value[0]], value[1..], escapeDollar);
      ChainOne(value[0], escapeDollar);
      ChainIsOnePass(value[1..], escapeDollar);
    }
  }

  datatype Token = Token(value: string, rest: string)

  /** Read up to the closing quote, undoing the escapes. */
  function Unescape(s: string, escapedDollar: bool): Option<Token> {
    if s == "" then None
    else if s[0] == '"' then Some(Token("", s[1..]))
    else if s[0] == '\\' || s[0] == '%' || (s[0] == '$' && escapedDollar) then
      if |s| >= 2 && (s[0] == s[1] || (s[0] == '\\' && s[1] == '"')) then
        match Unescape(s[2..], escapedDollar)
        case None => None
        case Some(t) => Some(Token([s[1]] + t.value, t.rest))
      else None
    else
      match Unescape(s[1..], escapedDollar)
      case None => None
      case Some(t) => Some(Token([s[0]] + t.value, t.rest))
  }

  function Unquote(s: string, escapedDollar: bool): Option<Token> {
    if s != "" && s[0] == '"' then Unescape(s[1..], escapedDollar) else None
  }

  /** Reading one escaped character, whatever follows. */
  lemma UnescapeOne(c: char, tail: string, dollar: bool, t: Token)
    requires Unescape(tail, dollar) == Some(t)
    ensures Unescape(EscapeChar(c, dollar) + tail, dollar) == Some(Token([c] + t.value, t.rest))
  {
    var e := EscapeChar(c, dollar);
    var s := e + tail;
    assert s[|e|..] == tail;
    if |e| == 2 {
      assert s[0] == e[0] && s[1] == e[1] == c;
    } else {
      assert s[0] == c;
    }
  }

  lemma {:induction false} UnescapeInverts(value: string, rest: string, dollar: bool)
    ensures Unescape(Escape(value, dollar) + "\"" + rest, dollar) == Some(Token(value, rest))
  {
    if value == "" {
      assert Escape(value, dollar) + "\"" + rest == "\"" + rest;
      assert ("\"" + rest)[1..] == rest;
    } else {
      var tail := Escape(value[1..], dollar) + "\"" + rest;
      assert Escape(value, dollar) + "\"" + rest == EscapeChar(value[0], dollar) + tail;
      UnescapeInverts(value[1..], rest, dollar);
      UnescapeOne(value[0], tail, dollar, Token(value[1..], rest));
      assert [value[0]] + value[1..] == value;
    }
  }

  /** Quoting loses nothing, and the closing quote is where it was put. */
  lemma UnquoteInverts(value: string, rest: string, dollar: bool)
    requires Quote(value, dollar).Some?
    ensures Unquote(Quote(value, dollar).value + rest, dollar) == Some(Token(value, rest))
  {
    ChainIsOnePass(value, dollar);
    var q := Quote(value, dollar).value + rest;
    assert q[1..] == Escape(value, dollar) + "\"" + rest;
    UnescapeInverts(value, rest, dollar);
  }

  predicate Visible(c: char) {
    ' ' <= c <= '~'
  }

  /** Escaping adds only visible characters. */
  lemma {:induction false} EscapeAdds(value: string, dollar: bool, d: char)
    requires d !in value && !Visible(d)
    ensures d !in Escape(value, dollar)
  {
    if value == "" {
    } else {
      EscapeAdds(value[1..], dollar, d);
    }
  }

  lemma QuoteAdds(value: string, dollar: bool, d: char)
    requires Quote(value, dollar).Some? && d !in value && !Visible(d)
    ensures d !in Quote(value, dollar).value
  {
    ChainIsOnePass(value, dollar);
    EscapeAdds(value, dollar, d);
  }

  // ---------------------------------------------------------------- the command line

  /** " ".join(_quote(argument) ...), or None when an argument cannot be quoted. */
  function QuoteAll(arguments: seq<string>): Option<seq<string>> {
    if arguments == [] then Some([])
    else
      match (Quote(arguments[0], true), QuoteAll(arguments[1..]))
      case (Some(q), Some(qs)) => Some([q] + qs)
      case _ => None
  }

  function ParseCommand(s: string): Option<seq<string>>
    decreases |s|
  {
    match Unquote(s, true)
    case None => None
    case Some(t) =>
      if t.rest == "" then Some([t.value])
      else if t.rest[0] != ' ' || |t.rest| >= |s| then None
      else
        match ParseCommand(t.rest[1..])
        case None => None
        case Some(more) => Some([t.value] + more)
  }

  lemma {:induction false} ParseCommandInverts(arguments: seq<string>)
    requires |arguments| >= 1 && QuoteAll(arguments).Some?
    ensures ParseCommand(Join(QuoteAll(arguments).value, ' ')) == Some(arguments)
    decreases |arguments|
  {
    var quoted := QuoteAll(arguments).value;
    var q := Quote(arguments[0], true).value;
    if |arguments| == 1 {
      UnquoteInverts(arguments[0], "", true);
      assert arguments == [arguments[0]] && arguments[1..] == [];
      assert quoted == [q] && q == q + "";
    } else {
      var qs := QuoteAll(arguments[1..]).value;
      QuoteAllLength(arguments[1..]);
      var rest := " " + Join(qs, ' ');
      assert quoted[1..] == qs;
      assert Join(quoted, ' ') == q + rest;
      UnquoteInverts(arguments[0], rest, true);
      ParseCommandInverts(arguments[1..]);
      assert rest[1..] == Join(qs, ' ');
      assert arguments == [arguments[0]] + arguments[1..];
    }
  }

  lemma {:induction false} QuoteAllLength(arguments: seq<string>)
    ensures QuoteAll(arguments).Some? ==> |QuoteAll(arguments).value| == |arguments|
  {
    if arguments == [] {
    } else {
      QuoteAllLength(arguments[1..]);
    }
  }

  lemma {:induction false} QuoteAllAdds(arguments: seq<string>, d: char)
    requires QuoteAll(arguments).Some? && !Visible(d)
    requires forall i :: 0 <= i < |arguments| ==> d !in arguments[i]
    ensures d !in Join(QuoteAll(arguments).value, ' ')
  {
    if arguments == [] {
    } else {
      QuoteAdds(arguments[0], true, d);
      QuoteAllAdds(arguments[1..], d);
      assert QuoteAll(arguments).value[1..] == QuoteAll(arguments[1..]).value;
    }
  }

  lemma {:induction false} QuotedHaveNoControl(arguments: seq<string>, i: nat)
    requires QuoteAll(arguments).Some? && i < |arguments|
    ensures !HasControl(arguments[i])
  {
    if i == 0 {
    } else {
      QuotedHaveNoControl(arguments[1..], i - 1);
    }
  }

  // ---------------------------------------------------------------- the working directory

  predicate SafePathByte(b: Byte) {
    || 97 <= b <= 122 || 65 <= b <= 90 || 48 <= b <= 57       // letters and digits
    || b == 47 || b == 46 || b == 95 || b == 45               // / . _ -
  }

  function EscapeByte(b: Byte): string {
    if SafePathByte(b) then [b as char]
    else if b == 37 then "%%"
    else "\\x" + [HexDigit(b / 16), HexDigit(b % 16)]
  }

  function EscapeBytes(path: seq<Byte>): string {
    if path == [] then "" else EscapeBytes(path[..|path| - 1]) + EscapeByte(path[|path| - 1])
  }

  predicate PathHasControl(path: seq<Byte>) {
    10 in path || 13 in path || 0 in path
  }

  /** _escape_path: the byte loop. */
  method EscapePath(path: seq<Byte>) returns (r: Option<string>)
    ensures r == if PathHasControl(path) then None else Some(EscapeBytes(path))
  {
    if PathHasControl(path) {
      return None;
    }
    var output := "";
    for i := 0 to |path|
      invariant output == EscapeBytes(path[..i])
    {
      assert path[..i + 1][..i] == path[..i];
      if SafePathByte(path[i]) {
        output := output + [path[i] as char];
      } else if path[i] == 37 {
        output := output + "%%";
      } else {
        output := output + "\\x" + [HexDigit(path[i] / 16), HexDigit(path[i] % 16)];
      }
    }
    assert path[..|path|] == path;
    return Some(output);
  }

  /** Read one escaped byte; returns it with the number of characters used. */
  function ParseByte(s: string): Option<(Byte, nat)> {
    if s == "" then None
    else if s[0] == '%' then
      if |s| >= 2 && s[1] == '%' then Some((37, 2)) else None
    else if s[0] == '\\' then
      if |s| >= 4 && s[1] == 'x' && HexValue(s[2]).Some? && HexValue(s[3]).Some?
      then Some((HexValue(s[2]).value * 16 + HexValue(s[3]).value, 4))
      else None
    else if s[0] as nat < 256 then Some((s[0] as nat, 1))
    else None
  }

  function ParsePath(s: string): Option<seq<Byte>> {
    if s == "" then Some([])
    else
      match ParseByte(s)
      case None => None
      case Some((b, used)) =>
        match ParsePath(s[used..])
        case None => None
        case Some(more) => Some([b] + more)
  }

  lemma ParseByteInverts(b: Byte, rest: string)
    ensures ParseByte(EscapeByte(b) + rest) == Some((b, |EscapeByte(b)|))
  {
    HexRoundTrip(b / 16);
    HexRoundTrip(b % 16);
  }

  lemma {:induction false} EscapeBytesCons(b: Byte, path: seq<Byte>)
    ensures EscapeBytes([b] + path) == EscapeByte(b) + EscapeBytes(path)
  {
    if path == [] {
      assert [b] + path == [b] && [b][..0] == [];
      assert EscapeByte(b) + "" == EscapeByte(b);
    } else {
      var front, last := path[..|path| - 1], path[|path| - 1];
      assert ([b] + path)[..|path|] == [b] + front && ([b] + path)[|path|] == last;
      EscapeBytesCons(b, front);
      Associates(EscapeByte(b), EscapeBytes(front), EscapeByte(last));
    }
  }

  lemma Associates(a: string, b: string, c: string)
    ensures a + b + c == a + (b + c)
  {
  }

  lemma {:induction false} ParsePathInverts(path: seq<Byte>)
    ensures ParsePath(EscapeBytes(path)) == Some(path)
  {
    if path == [] {
    } else {
      var b, rest := path[0], path[1..];
      assert path == [b] + rest;
      EscapeBytesCons(b, rest);
      ParseByteInverts(b, EscapeBytes(rest));
      var s := EscapeByte(b) + EscapeBytes(rest);
      assert s[|EscapeByte(b)|..] == EscapeBytes(rest);
      ParsePathInverts(rest);
    }
  }

  /** An escaped path holds letters, digits, slashes, dots, underscores and hyphens, and the two escape characters. */
  lemma {:induction false} EscapedPathIsSafe(path: seq<Byte>, c: char)
    requires c in EscapeBytes(path)
    ensures 'a' <= c <= 'z' || 'A' <= c <= 'Z' || '0' <= c <= '9' || c in {'/', '.', '_', '-', '%', '\\'}
  {
    if path == [] {
    } else if c in EscapeBytes(path[..|path| - 1]) {
      EscapedPathIsSafe(path[..|path| - 1], c);
    } else {
      EscapedByteIsSafe(path[|path| - 1], c);
    }
  }

  lemma EscapedByteIsSafe(b: Byte, c: char)
    requires c in EscapeByte(b)
    ensures 'a' <= c <= 'z' || 'A' <= c <= 'Z' || '0' <= c <= '9' || c in {'/', '.', '_', '-', '%', '\\'}
  {
  }

  lemma {:induction false} EscapeBytesAreVisible(path: seq<Byte>, d: char)
    requires !Visible(d)
    ensures d !in EscapeBytes(path)
  {
    if path == [] {
    } else {
      EscapeBytesAreVisible(path[..|path| - 1], d);
      EscapeByteIsVisible(path[|path| - 1], d);
    }
  }

  lemma EscapeByteIsVisible(b: Byte, d: char)
    requires !Visible(d)
    ensures d !in EscapeByte(b)
  {
  }

  // ---------------------------------------------------------------- the environment

  /** Insertion by name; sorted(dict.items()) with distinct names. */
  function Insert(item: (string, string), sorted: seq<(string, string)>): seq<(string, string)> {
    if sorted == [] || LessEq(item.0, sorted[0].0) then [item] + sorted
    else [sorted[0]] + Insert(item, sorted[1..])
  }

  function SortItems(items: seq<(string, string)>): seq<(string, string)> {
    if items == [] then [] else Insert(items[0], SortItems(items[1..]))
  }

  predicate SortedByName(items: seq<(string, string)>) {
    forall i, j :: 0 <= i < j < |items| ==> LessEq(items[i].0, items[j].0)
  }

  lemma {:induction false} InsertKeeps(item: (string, string), sorted: seq<(string, string)>)
    requires SortedByName(sorted)
    ensures SortedByName(Insert(item, sorted))
    ensures multiset(Insert(item, sorted)) == multiset{item} + multiset(sorted)
  {
    if sorted == [] {
    } else if LessEq(item.0, sorted[0].0) {
      forall j | 0 <= j < |sorted| ensures LessEq(item.0, sorted[j].0) {
        if j > 0 {
          LessEqTransitive(item.0, sorted[0].0, sorted[j].0);
        }
      }
    } else {
      var tail := sorted[1..];
      InsertKeeps(item, tail);
      assert sorted == [sorted[0]] + tail;
      LessEqTotal(item.0, sorted[0].0);
      forall x | x in Insert(item, tail) ensures LessEq(sorted[0].0, x.0) {
        assert x in multiset(Insert(item, tail));
        if x != item {
          assert x in multiset(tail);
        }
      }
    }
  }

  /** The printed order is sorted, and nothing is lost or repeated. */
  lemma {:induction false} SortItemsSorts(items: seq<(string, string)>)
    ensures SortedByName(SortItems(items))
    ensures multiset(SortItems(items)) == multiset(items)
  {
    if items == [] {
    } else {
      SortItemsSorts(items[1..]);
      InsertKeeps(items[0], SortItems(items[1..]));
      assert items == [items[0]] + items[1..];
    }
  }

  predicate NameStart(c: char) {
    'A' <= c <= 'Z' || c == '_'
  }

  /** ENVIRONMENT_NAME_PATTERN of the manifest schema. */
  predicate ValidName(name: string) {
    && name != "" && NameStart(name[0])
    && forall i :: 0 <= i < |name| ==> NameStart(name[i]) || '0' <= name[i] <= '9'
  }

  predicate DistinctNames(items: seq<(string, string)>) {
    forall i, j :: 0 <= i < j < |items| ==> items[i].0 != items[j].0
  }

  /** What the schema guarantees of every manifest. */
  predicate ValidEnvironment(items: seq<(string, string)>) {
    DistinctNames(items) && forall item :: item in items ==> ValidName(item.0)
  }

  /** The mapping a list of items denotes. */
  function EnvMap(items: seq<(string, string)>): map<string, string> {
    map item | item in items :: item.0 := ValueOf(items, item.0)
  }

  function ValueOf(items: seq<(string, string)>, name: string): string {
    if items == [] then "" else if items[0].0 == name then items[0].1 else ValueOf(items[1..], name)
  }

  lemma {:induction false} ValueOfItem(items: seq<(string, string)>, item: (string, string))
    requires DistinctNames(items) && item in items
    ensures ValueOf(items, item.0) == item.1
  {
    if items[0] == item {
    } else {
      assert item in items[1..];
      ValueOfItem(items[1..], item);
    }
  }

  /** The same items in another order denote the same mapping. */
  lemma EnvMapIgnoresOrder(a: seq<(string, string)>, b: seq<(string, string)>)
    requires DistinctNames(a) && DistinctNames(b) && multiset(a) == multiset(b)
    ensures EnvMap(a) == EnvMap(b)
  {
    forall item | item in a ensures item in b && ValueOf(a, item.0) == ValueOf(b, item.0) {
      assert item in multiset(a);
      ValueOfItem(a, item);
      ValueOfItem(b, item);
    }
    forall item | item in b ensures item in a {
      assert item in multiset(b);
    }
  }

  function EnvironmentLine(item: (string, string)): Option<string> {
    if HasControl(item.1) then None
    else
      match Quote(item.0 + "=" + item.1, false)
      case None => None
      case Some(q) => Some(ENVIRONMENT + q)
  }

  function EnvironmentLines(items: seq<(string, string)>): Option<seq<string>> {
    if items == [] then Some([])
    else
      match (EnvironmentLines(items[..|items| - 1]), EnvironmentLine(items[|items| - 1]))
      case (Some(lines), Some(line)) => Some(lines + [line])
      case _ => None
  }

  function ParseEnvironmentLine(line: string): Option<(string, string)> {
    match After(line, ENVIRONMENT)
    case None => None
    case Some(q) =>
      match Unquote(q, false)
      case None => None
      case Some(t) =>
        var parts := Split(t.value, '=');
        if t.rest == "" && |parts[0]| < |t.value| then Some((parts[0], t.value[|parts[0]| + 1..])) else None
  }

  function ParseEnvironment(lines: seq<string>): Option<seq<(string, string)>> {
    if lines == [] then Some([])
    else
      match (ParseEnvironment(lines[..|lines| - 1]), ParseEnvironmentLine(lines[|lines| - 1]))
      case (Some(items), Some(item)) => Some(items + [item])
      case _ => None
  }

  lemma EnvironmentLineInverts(item: (string, string))
    requires ValidName(item.0) && EnvironmentLine(item).Some?
    ensures ParseEnvironmentLine(EnvironmentLine(item).value) == Some(item)
  {
    var text := item.0 + "=" + item.1;
    var q := Quote(text, false).value;
    AfterPrefix(ENVIRONMENT, q);
    UnquoteInverts(text, "", false);
    assert q + "" == q;
    assert '=' !in item.0;
    assert text == item.0 + ['='] + item.1;
    SplitHead(item.0, '=', item.1);
    assert text[|item.0| + 1..] == item.1;
  }

  lemma ParseEnvironmentSnoc(lines: seq<string>, line: string)
    ensures ParseEnvironment(lines + [line])
            == if ParseEnvironment(lines).Some? && ParseEnvironmentLine(line).Some?
               then Some(ParseEnvironment(lines).value + [ParseEnvironmentLine(line).value]) else None
  {
    assert (lines + [line])[..|lines|] == lines;
  }

  lemma {:induction false} EnvironmentLinesInvert(items: seq<(string, string)>)
    requires forall i :: 0 <= i < |items| ==> ValidName(items[i].0)
    requires EnvironmentLines(items).Some?
    ensures ParseEnvironment(EnvironmentLines(items).value) == Some(items)
  {
    if items == [] {
    } else {
      var front, last := items[..|items| - 1], items[|items| - 1];
      EnvironmentLinesInvert(front);
      EnvironmentLineInverts(last);
      ParseEnvironmentSnoc(EnvironmentLines(front).value, EnvironmentLine(last).value);
      assert items == front + [last];
    }
  }

  lemma {:induction false} EnvironmentLinesAdd(items: seq<(string, string)>, d: char)
    requires EnvironmentLines(items).Some? && !Visible(d)
    requires forall i :: 0 <= i < |items| ==> d !in items[i].0 + "=" + items[i].1
    ensures forall i :: 0 <= i < |EnvironmentLines(items).value| ==> d !in EnvironmentLines(items).value[i]
  {
    if items == [] {
    } else {
      var last := items[|items| - 1];
      EnvironmentLinesAdd(items[..|items| - 1], d);
      QuoteAdds(last.0 + "=" + last.1, false, d);
      assert d !in ENVIRONMENT;
    }
  }

  lemma {:induction false} PrintedHaveNoControl(items: seq<(string, string)>, i: nat)
    requires EnvironmentLines(items).Some? && i < |items|
    ensures !HasControl(items[i].0 + "=" + items[i].1)
  {
    if i == |items| - 1 {
    } else {
      PrintedHaveNoControl(items[..|items| - 1], i);
    }
  }

  // ---------------------------------------------------------------- the unit

  // The two longest texts are written in parts: the verifier does not see the characters of a very long literal.
  const DESCRIPTION := "Description=MachineDeck " + "managed application " + "machinedeck-"
  const SUFFIX := ".service"
  const WORKING_DIRECTORY := "WorkingDirectory="
  const EXEC_START := "ExecStart="
  const ENVIRONMENT := "Environment="

  const HEADER: seq<string> := [
    "# Generated by MachineDeck. " + "Manual changes will be detected" + " and replaced.",
    "[Unit]"
  ]
  const SERVICE_HEAD: seq<string> := [
    "After=network-online.target",
    "Wants=network-online.target",
    "",
    "[Service]",
    "Type=simple"
  ]
  const TAIL: seq<string> := [
    "KillMode=control-group",
    "TimeoutStartSec=120",
    "TimeoutStopSec=30",
    "Restart=no",
    "NoNewPrivileges=true",
    "",
    "[Install]",
    "WantedBy=default.target",
    ""
  ]

  /** The fixed lines around the variable ones. */
  function Frame(description: string, directory: string, command: string, environment: seq<string>): seq<string> {
    HEADER + [description] + SERVICE_HEAD + [directory, command] + environment + TAIL
  }

  predicate IdChar(c: char) {
    'a' <= c <= 'z' || '0' <= c <= '9' || c == '-'
  }

  /** unit_name_for accepts the id. */
  predicate SafeId(id: string) {
    && id != "" && id[0] != '-' && id[|id| - 1] != '-'
    && forall i :: 0 <= i < |id| ==> IdChar(id[i])
  }

  /** The lines render_user_unit joins, before validation; None is its UnitError. */
  function UnitLines(m: Manifest): Option<seq<string>> {
    if !SafeId(m.id) || PathHasControl(m.workingDir) then None
    else
      match (QuoteAll(m.command), EnvironmentLines(SortItems(m.environment)))
      case (Some(quoted), Some(environment)) =>
        Some(Frame(DESCRIPTION + m.id + SUFFIX,
                   WORKING_DIRECTORY + EscapeBytes(m.workingDir),
                   EXEC_START + Join(quoted, ' '),
                   environment))
      case _ => None
  }

  lemma {:induction false} QuotesIff(arguments: seq<string>)
    ensures QuoteAll(arguments).Some? <==> forall a :: a in arguments ==> !HasControl(a)
  {
    if arguments == [] {
    } else {
      QuotesIff(arguments[1..]);
      assert arguments == [arguments[0]] + arguments[1..];
    }
  }

  lemma EnvironmentLineIff(item: (string, string))
    ensures EnvironmentLine(item).Some? <==> !HasControl(item.0) && !HasControl(item.1)
  {
    var s := item.0 + "=" + item.1;
    forall c ensures c in s <==> c in item.0 || c == '=' || c in item.1 {
      if c in item.0 {
        var i :| 0 <= i < |item.0| && item.0[i] == c;
        assert s[i] == c;
      }
      if c in item.1 {
        var i :| 0 <= i < |item.1| && item.1[i] == c;
        assert s[|item.0| + 1 + i] == c;
      }
      assert s[|item.0|] == '=';
    }
  }

  lemma {:induction false} EnvironmentPrintsIff(items: seq<(string, string)>)
    ensures EnvironmentLines(items).Some? <==> forall e :: e in items ==> !HasControl(e.0) && !HasControl(e.1)
  {
    if items == [] {
    } else {
      var front, last := items[..|items| - 1], items[|items| - 1];
      EnvironmentPrintsIff(front);
      EnvironmentLineIff(last);
      assert items == front + [last];
    }
  }

  lemma SortingKeepsItems(items: seq<(string, string)>)
    ensures forall e :: e in SortItems(items) <==> e in items
  {
    SortItemsSorts(items);
    assert forall e :: e in SortItems(items) <==> e in multiset(SortItems(items));
    assert forall e :: e in items <==> e in multiset(items);
  }

  lemma PrintsWithoutControl(m: Manifest)
    ensures UnitLines(m).Some? <==>
            && SafeId(m.id) && !PathHasControl(m.workingDir)
            && (forall a :: a in m.command ==> !HasControl(a))
            && (forall e :: e in m.environment ==> !HasControl(e.0) && !HasControl(e.1))
  {
    QuotesIff(m.command);
    EnvironmentPrintsIff(SortItems(m.environment));
    SortingKeepsItems(m.environment);
  }

  lemma SafeIdChars(id: string)
    ensures (forall i :: 0 <= i < |id| ==> IdChar(id[i])) <==> forall c :: c in id ==> 'a' <= c <= 'z' || '0' <= c <= '9' || c == '-'
  {
    if forall c :: c in id ==> 'a' <= c <= 'z' || '0' <= c <= '9' || c == '-' {
      forall i | 0 <= i < |id| ensures IdChar(id[i]) {
        assert id[i] in id;
      }
    }
  }

  lemma ControlFree(s: string)
    ensures !HasControl(s) <==> forall c :: c in s ==> c != '\n' && c != '\r' && c != '\0'
  {
  }

  /** Exactly which manifests print: a safe id, and no newline, carriage return or null anywhere. */
  lemma PrintsIff(m: Manifest)
    ensures UnitLines(m).Some? <==>
            && m.id != "" && m.id[0] != '-' && m.id[|m.id| - 1] != '-'
            && (forall c :: c in m.id ==> 'a' <= c <= 'z' || '0' <= c <= '9' || c == '-')
            && (forall b :: b in m.workingDir ==> b != 10 && b != 13 && b != 0)
            && (forall a, c :: a in m.command && c in a ==> c != '\n' && c != '\r' && c != '\0')
            && (forall e, c :: e in m.environment && (c in e.0 || c in e.1) ==> c != '\n' && c != '\r' && c != '\0')
  {
    PrintsWithoutControl(m);
    SafeIdChars(m.id);
    forall a | a in m.command ensures !HasControl(a) <==> forall c :: c in a ==> c != '\n' && c != '\r' && c != '\0' {
      ControlFree(a);
    }
    forall e | e in m.environment
      ensures !HasControl(e.0) && !HasControl(e.1)
              <==> forall c :: c in e.0 || c in e.1 ==> c != '\n' && c != '\r' && c != '\0'
    {
      ControlFree(e.0);
      ControlFree(e.1);
    }
  }

  datatype Unit = Unit(id: string, workingDir: seq<Byte>, command: seq<string>, environment: seq<(string, string)>)

  /** Split on newlines and invert the escapes, directive by directive. */
  function ParseLines(lines: seq<string>): Option<Unit> {
    if |lines| < 19 then None
    else
      match (After(lines[2], DESCRIPTION), After(lines[8], WORKING_DIRECTORY), After(lines[9], EXEC_START),
             ParseEnvironment(lines[10..|lines| - 9]))
      case (Some(name), Some(path), Some(command), Some(environment)) =>
        if |name| < |SUFFIX| then None
        else
          (match (ParsePath(path), ParseCommand(command))
           case (Some(dir), Some(arguments)) => Some(Unit(name[..|name| - |SUFFIX|], dir, arguments, environment))
           case _ => None)
      case _ => None
  }

  function ParseUnit(text: string): Option<Unit> {
    ParseLines(Split(text, '\n'))
  }

  /** render_user_unit up to the join: the environment loop appends one line per sorted item. */
  method RenderLines(m: Manifest) returns (r: Option<seq<string>>)
    ensures r == UnitLines(m)
  {
    if !SafeId(m.id) {
      return None;
    }
    var quoted := QuoteAll(m.command);
    var directory := EscapePath(m.workingDir);
    if directory.None? || quoted.None? {
      return None;
    }
    var environment := RenderEnvironment(SortItems(m.environment));
    if environment.None? {
      return None;
    }
    return Some(Frame(DESCRIPTION + m.id + SUFFIX, WORKING_DIRECTORY + directory.value,
                      EXEC_START + Join(quoted.value, ' '), environment.value));
  }

  /** The loop over the sorted environment. */
  method RenderEnvironment(items: seq<(string, string)>) returns (r: Option<seq<string>>)
    ensures r == EnvironmentLines(items)
  {
    var environment: seq<string> := [];
    for i := 0 to |items|
      invariant EnvironmentLines(items[..i]) == Some(environment)
    {
      assert items[..i + 1][..i] == items[..i];
      var line := EnvironmentLine(items[i]);
      if line.None? {
        EnvironmentStopsAt(items, i);
        return None;
      }
      environment := environment + [line.value];
    }
    assert items[..|items|] == items;
    return Some(environment);
  }

  /** One unprintable value makes the whole environment unprintable. */
  lemma {:induction false} EnvironmentStopsAt(items: seq<(string, string)>, i: nat)
    requires i < |items| && EnvironmentLine(items[i]).None?
    ensures EnvironmentLines(items).None?
  {
    if i == |items| - 1 {
    } else {
      EnvironmentStopsAt(items[..|items| - 1], i);
    }
  }

  // ---------------------------------------------------------------- the round trip

  lemma HeaderIsVisible(d: char)
    requires !Visible(d)
    ensures forall i :: 0 <= i < |HEADER| ==> d !in HEADER[i]
  {
  }

  lemma ServiceHeadIsVisible(d: char)
    requires !Visible(d)
    ensures forall i :: 0 <= i < |SERVICE_HEAD| ==> d !in SERVICE_HEAD[i]
  {
  }

  lemma TailIsVisible(d: char)
    requires !Visible(d)
    ensures forall i :: 0 <= i < |TAIL| ==> d !in TAIL[i]
  {
    assert forall i :: 0 <= i < 4 ==> d !in TAIL[i];
  }

  lemma FrameLayout(description: string, directory: string, command: string, environment: seq<string>)
    ensures var lines := Frame(description, directory, command, environment);
            && |lines| == 19 + |environment|
            && lines[2] == description && lines[8] == directory && lines[9] == command
            && lines[10..|lines| - 9] == environment
  {
  }

  lemma FrameAdds(description: string, directory: string, command: string, environment: seq<string>, d: char)
    requires !Visible(d) && d !in description && d !in directory && d !in command
    requires forall i :: 0 <= i < |environment| ==> d !in environment[i]
    ensures var lines := Frame(description, directory, command, environment);
            forall i :: 0 <= i < |lines| ==> d !in lines[i]
  {
    HeaderIsVisible(d);
    ServiceHeadIsVisible(d);
    TailIsVisible(d);
    var front := HEADER + [description] + SERVICE_HEAD + [directory, command];
    assert forall i :: 0 <= i < |front| ==> d !in front[i];
    assert Frame(description, directory, command, environment) == front + environment + TAIL;
  }

  lemma IdIsVisible(id: string, d: char)
    requires SafeId(id) && !Visible(d)
    ensures d !in DESCRIPTION + id + SUFFIX
  {
    assert d !in DESCRIPTION && d !in SUFFIX;
  }

  /** Reading the directives back from a frame, whatever the fixed lines are. */
  lemma ParseFrameInverts(lines: seq<string>, m: Manifest, quoted: seq<string>, items: seq<(string, string)>)
    requires |lines| >= 19
    requires lines[2] == DESCRIPTION + m.id + SUFFIX
    requires lines[8] == WORKING_DIRECTORY + EscapeBytes(m.workingDir)
    requires lines[9] == EXEC_START + Join(quoted, ' ')
    requires ParseEnvironment(lines[10..|lines| - 9]) == Some(items)
    requires m.command != [] && QuoteAll(m.command) == Some(quoted)
    ensures ParseLines(lines) == Some(Unit(m.id, m.workingDir, m.command, items))
  {
    AfterPrefix(DESCRIPTION, m.id + SUFFIX);
    assert DESCRIPTION + m.id + SUFFIX == DESCRIPTION + (m.id + SUFFIX);
    AfterPrefix(WORKING_DIRECTORY, EscapeBytes(m.workingDir));
    AfterPrefix(EXEC_START, Join(quoted, ' '));
    ParsePathInverts(m.workingDir);
    ParseCommandInverts(m.command);
    assert (m.id + SUFFIX)[..|m.id + SUFFIX| - |SUFFIX|] == m.id;
  }

  /** The text of clean lines parses as the lines do. */
  lemma JoinThenParse(lines: seq<string>)
    requires |lines| >= 1 && forall i :: 0 <= i < |lines| ==> '\n' !in lines[i]
    ensures ParseUnit(Join(lines, '\n')) == ParseLines(lines)
  {
    SplitJoin(lines, '\n');
  }

  lemma VariableLinesAdd(m: Manifest, quoted: seq<string>, d: char)
    requires SafeId(m.id) && QuoteAll(m.command) == Some(quoted) && !Visible(d)
    requires forall i :: 0 <= i < |m.command| ==> d !in m.command[i]
    ensures d !in DESCRIPTION + m.id + SUFFIX
    ensures d !in WORKING_DIRECTORY + EscapeBytes(m.workingDir)
    ensures d !in EXEC_START + Join(quoted, ' ')
  {
    IdIsVisible(m.id, d);
    EscapeBytesAreVisible(m.workingDir, d);
    QuoteAllAdds(m.command, d);
  }

  lemma FrameRoundTrip(m: Manifest, quoted: seq<string>, items: seq<(string, string)>, environment: seq<string>,
                       description: string, directory: string, command: string)
    requires SafeId(m.id) && m.command != [] && QuoteAll(m.command) == Some(quoted)
    requires ParseEnvironment(environment) == Some(items)
    requires forall i :: 0 <= i < |environment| ==> '\n' !in environment[i]
    requires description == DESCRIPTION + m.id + SUFFIX
    requires directory == WORKING_DIRECTORY + EscapeBytes(m.workingDir)
    requires command == EXEC_START + Join(quoted, ' ')
    ensures ParseUnit(Join(Frame(description, directory, command, environment), '\n'))
            == Some(Unit(m.id, m.workingDir, m.command, items))
  {
    forall i | 0 <= i < |m.command| ensures '\n' !in m.command[i] {
      QuotedHaveNoControl(m.command, i);
    }
    VariableLinesAdd(m, quoted, '\n');
    FrameAdds(description, directory, command, environment, '\n');
    FrameLayout(description, directory, command, environment);
    var lines := Frame(description, directory, command, environment);
    JoinThenParse(lines);
    ParseFrameInverts(lines, m, quoted, items);
  }

  /** Every process manifest that prints is recovered from its unit: id, working directory, command
      vector, and the environment items in printed order. */
  lemma ParseUnitInverts(m: Manifest)
    requires ValidEnvironment(m.environment) && m.command != []
    requires UnitLines(m).Some?
    ensures ParseUnit(Join(UnitLines(m).value, '\n'))
            == Some(Unit(m.id, m.workingDir, m.command, SortItems(m.environment)))
  {
    var items := SortItems(m.environment);
    SortItemsSorts(m.environment);
    forall i | 0 <= i < |items| ensures ValidName(items[i].0) {
      assert items[i] in multiset(items);
    }
    EnvironmentLinesInvert(items);
    forall i | 0 <= i < |items| ensures '\n' !in items[i].0 + "=" + items[i].1 {
      PrintedHaveNoControl(items, i);
    }
    EnvironmentLinesAdd(items, '\n');
    var quoted := QuoteAll(m.command).value;
    FrameRoundTrip(m, quoted, items, EnvironmentLines(items).value, DESCRIPTION + m.id + SUFFIX,
                   WORKING_DIRECTORY + EscapeBytes(m.workingDir), EXEC_START + Join(quoted, ' '));
  }

  /** Equal unit text, which is what consistency MATCH compares, forces the same id, command,
      environment mapping and working directory. */
  lemma EqualUnitsEqualManifests(a: Manifest, b: Manifest)
    requires ValidEnvironment(a.environment) && a.command != [] && UnitLines(a).Some?
    requires ValidEnvironment(b.environment) && b.command != [] && UnitLines(b).Some?
    requires Join(UnitLines(a).value, '\n') == Join(UnitLines(b).value, '\n')
    ensures a.id == b.id && a.command == b.command && a.workingDir == b.workingDir
    ensures EnvMap(a.environment) == EnvMap(b.environment)
  {
    ParseUnitInverts(a);
    ParseUnitInverts(b);
    SortItemsSorts(a.environment);
    SortItemsSorts(b.environment);
    EnvMapIgnoresOrder(a.environment, b.environment);
  }

  lemma HeadIsLeast(a: seq<(string, string)>, b: seq<(string, string)>)
    requires SortedByName(a) && SortedByName(b) && DistinctNames(a) && multiset(a) == multiset(b) && a != [] && b != []
    ensures a[0] == b[0]
  {
    assert a[0] in multiset(b) && b[0] in multiset(a);
    var i :| 0 <= i < |b| && b[i] == a[0];
    var j :| 0 <= j < |a| && a[j] == b[0];
    if i > 0 && j > 0 {
      LessEqAntisymmetric(a[0].0, b[0].0);
    }
  }

  lemma TailsStayEqual(a: seq<(string, string)>, b: seq<(string, string)>)
    requires a != [] && b != [] && a[0] == b[0] && multiset(a) == multiset(b)
    ensures multiset(a[1..]) == multiset(b[1..])
  {
    var x := a[0];
    assert a == [x] + a[1..] && b == [x] + b[1..];
    assert multiset(a[1..]) == multiset(a) - multiset{x};
    assert multiset(b[1..]) == multiset(b) - multiset{x};
  }

  lemma {:induction false} SortedIsUnique(a: seq<(string, string)>, b: seq<(string, string)>)
    requires SortedByName(a) && SortedByName(b) && DistinctNames(a) && multiset(a) == multiset(b)
    ensures a == b
  {
    assert |multiset(a)| == |a| && |multiset(b)| == |b|;
    if a == [] {
    } else {
      HeadIsLeast(a, b);
      TailsStayEqual(a, b);
      SortedIsUnique(a[1..], b[1..]);
      assert a == [a[0]] + a[1..] && b == [b[0]] + b[1..];
    }
  }

  lemma {:induction false} DistinctUnderReordering(a: seq<(string, string)>, b: seq<(string, string)>)
    requires DistinctNames(a) && multiset(a) == multiset(b)
    ensures DistinctNames(b)
  {
    forall i, j | 0 <= i < j < |b| ensures b[i].0 != b[j].0 {
      if b[i].0 == b[j].0 {
        assert b[i] in multiset(a) && b[j] in multiset(a);
        var p :| 0 <= p < |a| && a[p] == b[i];
        var q :| 0 <= q < |a| && a[q] == b[j];
        assert p == q;
        RepeatedCountsTwice(b, i, j);
        OnceCountsOnce(a, p);
      }
    }
  }

  lemma RepeatedCountsTwice(s: seq<(string, string)>, i: nat, j: nat)
    requires i < j < |s| && s[i] == s[j]
    ensures multiset(s)[s[i]] >= 2
  {
    assert s == s[..i] + [s[i]] + s[i + 1..j] + [s[j]] + s[j + 1..];
  }

  lemma OnceCountsOnce(s: seq<(string, string)>, p: nat)
    requires DistinctNames(s) && p < |s|
    ensures multiset(s)[s[p]] == 1
  {
    assert s == s[..p] + [s[p]] + s[p + 1..];
    assert s[p] !in s[..p] && s[p] !in s[p + 1..];
  }

  /** Conversely the unit depends on nothing else: environments that differ only in insertion order
      print the same text. */
  lemma OrderOfEnvironmentIsIrrelevant(a: Manifest, b: Manifest)
    requires DistinctNames(a.environment) && multiset(a.environment) == multiset(b.environment)
    requires a.(environment := b.environment) == b
    ensures UnitLines(a) == UnitLines(b)
  {
    SortItemsSorts(a.environment);
    SortItemsSorts(b.environment);
    DistinctUnderReordering(a.environment, SortItems(a.environment));
    SortedIsUnique(SortItems(a.environment), SortItems(b.environment));
  }
}
