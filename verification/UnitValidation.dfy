/** validate_rendered_unit of backend/app/systemd/user_units.py, and exactly which printed units it
    accepts: it splits lines at more characters than the newline the printer joins them with. */
module UnitValidation {
  import opened Common
  import opened Text
  import opened UserUnits

  const MAX_UNIT_BYTES := 64 * 1024

  // ---------------------------------------------------------------- the validator

  function Width(c: char): nat {
    if c < '\U{80}' then 1 else if c < '\U{800}' then 2 else if c < '\U{10000}' then 3 else 4
  }

  /** len(content.encode("utf-8")) */
  function Utf8Size(s: string): nat {
    if s == "" then 0 else Width(s[0]) + Utf8Size(s[1..])
  }

  /** The line boundaries of str.splitlines() other than the carriage return, which is refused before. */
  predicate Boundary(c: char) {
    || c == '\n' || c == '\U{b}' || c == '\U{c}' || '\U{1c}' <= c <= '\U{1e}' || c == '\U{85}'
    || c == '\U{2028}' || c == '\U{2029}'
  }

  function Pieces(s: string): (r: seq<string>)
    ensures |r| >= 1
  {
    if s == "" then [""]
    else
      var rest := Pieces(s[1..]);
      if Boundary(s[0]) then [""] + rest else [[s[0]] + rest[0]] + rest[1..]
  }

  /** content.splitlines() */
  function SplitLines(s: string): seq<string> {
    var pieces := Pieces(s);
    if pieces[|pieces| - 1] == "" then pieces[..|pieces| - 1] else pieces
  }

  /** What the validator makes of one line. */
  datatype Kind = Skipped | Section(name: string) | Directive(key: string) | NoSeparator

  const ALLOWED: seq<string> := ["Description", "After", "Wants", "Type", "WorkingDirectory", "ExecStart", "Environment",
                                 "KillMode", "TimeoutStartSec", "TimeoutStopSec", "Restart", "NoNewPrivileges", "WantedBy"]

  predicate OneOf(key: string, keys: seq<string>) {
    keys != [] && (key == keys[0] || OneOf(key, keys[1..]))
  }

  /** The part of a line before its first equals sign. */
  function KeyOf(line: string): Option<string> {
    if line == "" then None
    else if line[0] == '=' then Some("")
    else
      match KeyOf(line[1..])
      case None => None
      case Some(key) => Some([line[0]] + key)
  }

  function KindOf(line: string): Kind {
    if line == "" || line[0] == '#' then Skipped
    else if line[0] == '[' && line[|line| - 1] == ']' then Section(line)
    else if KeyOf(line).Some? then Directive(KeyOf(line).value)
    else NoSeparator
  }

  /** The validator does not raise at this line. */
  predicate Supported(kind: Kind) {
    kind != NoSeparator && (kind.Directive? ==> OneOf(kind.key, ALLOWED))
  }

  predicate AllSupported(kinds: seq<Kind>) {
    forall i :: 0 <= i < |kinds| ==> Supported(kinds[i])
  }

  function Sections(kinds: seq<Kind>): seq<string> {
    if kinds == [] then []
    else Sections(kinds[..|kinds| - 1]) + (if kinds[|kinds| - 1].Section? then [kinds[|kinds| - 1].name] else [])
  }

  function Count(kinds: seq<Kind>, key: string): nat {
    if kinds == [] then 0
    else Count(kinds[..|kinds| - 1], key) + (if kinds[|kinds| - 1] == Directive(key) then 1 else 0)
  }

  const SECTIONS: seq<string> := ["[Unit]", "[Service]", "[Install]"]

  predicate Accepted(kinds: seq<Kind>) {
    && AllSupported(kinds)
    && Sections(kinds) == SECTIONS
    && Count(kinds, "WorkingDirectory") == 1 && Count(kinds, "ExecStart") == 1 && Count(kinds, "KillMode") == 1
  }

  function Kinds(lines: seq<string>): seq<Kind> {
    Map(lines, KindOf)
  }

  predicate Validates(content: string) {
    && Utf8Size(content) <= MAX_UNIT_BYTES
    && content != "" && content[|content| - 1] == '\n' && '\r' !in content && '\0' !in content
    && Accepted(Kinds(SplitLines(content)))
  }

  /** validate_rendered_unit, true where it returns and false where it raises. */
  method ValidateRenderedUnit(content: string) returns (ok: bool)
    ensures ok == Validates(content)
  {
    if Utf8Size(content) > MAX_UNIT_BYTES {
      return false;
    }
    if content == "" || content[|content| - 1] != '\n' || '\r' in content || '\0' in content {
      return false;
    }
    ok := CheckLines(SplitLines(content));
  }

  /** The loop over the lines: sections in order, directives counted, anything else refused. */
  method CheckLines(lines: seq<string>) returns (ok: bool)
    ensures ok == Accepted(Kinds(lines))
  {
    ghost var kinds := Kinds(lines);
    var sections: seq<string> := [];
    var directives: map<string, nat> := map[];
    for i := 0 to |lines|
      invariant Seen(kinds[..i], sections, directives)
    {
      assert kinds[..i + 1] == kinds[..i] + [kinds[i]];
      SeenOneMore(kinds[..i], sections, directives, kinds[i]);
      match KindOf(lines[i]) {
        case Skipped =>
        case Section(name) =>
          sections := sections + [name];
        case Directive(key) =>
          if !OneOf(key, ALLOWED) {
            assert !Supported(kinds[i]);
            return false;
          }
          directives := directives[key := (if key in directives then directives[key] else 0) + 1];
        case NoSeparator =>
          assert !Supported(kinds[i]);
          return false;
      }
    }
    assert kinds[..|lines|] == kinds;
    ok := sections == SECTIONS && Once(directives, "WorkingDirectory") && Once(directives, "ExecStart")
      && Once(directives, "KillMode");
  }

  predicate Once(directives: map<string, nat>, key: string) {
    key in directives && directives[key] == 1
  }

  ghost predicate Seen(kinds: seq<Kind>, sections: seq<string>, directives: map<string, nat>) {
    && AllSupported(kinds) && sections == Sections(kinds)
    && forall key :: Count(kinds, key) == if key in directives then directives[key] else 0
  }

  lemma SeenOneMore(kinds: seq<Kind>, sections: seq<string>, directives: map<string, nat>, kind: Kind)
    requires Seen(kinds, sections, directives)
    ensures kind.Skipped? ==> Seen(kinds + [kind], sections, directives)
    ensures kind.Section? ==> Seen(kinds + [kind], sections + [kind.name], directives)
    ensures kind.Directive? && OneOf(kind.key, ALLOWED) ==>
      Seen(kinds + [kind], sections,
           directives[kind.key := (if kind.key in directives then directives[kind.key] else 0) + 1])
  {
    assert (kinds + [kind])[..|kinds|] == kinds;
  }

  // ---------------------------------------------------------------- lines and their pieces

  predicate Clean(s: string) {
    forall i :: 0 <= i < |s| ==> !Boundary(s[i])
  }

  lemma {:induction false} CleanPrefix(prefix: string, s: string)
    requires Clean(prefix)
    ensures Pieces(prefix + s)[0] == prefix + Pieces(s)[0]
    ensures Pieces(prefix + s)[1..] == Pieces(s)[1..]
  {
    if prefix == "" {
      assert prefix + s == s;
    } else {
      assert (prefix + s)[1..] == prefix[1..] + s;
      CleanPrefix(prefix[1..], s);
      assert [prefix[0]] + prefix[1..] == prefix;
    }
  }

  lemma CleanIsOnePiece(s: string)
    requires Clean(s)
    ensures Pieces(s) == [s]
  {
    CleanPrefix(s, "");
    assert s + "" == s;
  }

  lemma {:induction false} PiecesConcat(a: string, b: string)
    ensures Pieces(a + ['\n'] + b) == Pieces(a) + Pieces(b)
  {
    if a == "" {
      assert a + ['\n'] + b == ['\n'] + b && (['\n'] + b)[1..] == b;
    } else {
      assert (a + ['\n'] + b)[1..] == a[1..] + ['\n'] + b;
      PiecesConcat(a[1..], b);
    }
  }

  function AllPieces(lines: seq<string>): seq<string> {
    if lines == [] then [] else Pieces(lines[0]) + AllPieces(lines[1..])
  }

  /** What follows the first piece of each line. */
  function Continuations(lines: seq<string>): seq<string> {
    if lines == [] then [] else Pieces(lines[0])[1..] + Continuations(lines[1..])
  }

  function Heads(lines: seq<string>): seq<string> {
    if lines == [] then [] else [Pieces(lines[0])[0]] + Heads(lines[1..])
  }

  lemma {:induction false} JoinPieces(lines: seq<string>)
    requires lines != []
    ensures Pieces(Join(lines, '\n')) == AllPieces(lines)
  {
    if |lines| == 1 {
      assert AllPieces(lines[1..]) == [];
    } else {
      PiecesConcat(lines[0], Join(lines[1..], '\n'));
      JoinPieces(lines[1..]);
    }
  }

  lemma {:induction false} AllPiecesSnoc(lines: seq<string>, line: string)
    ensures AllPieces(lines + [line]) == AllPieces(lines) + Pieces(line)
  {
    if lines == [] {
      assert lines + [line] == [line] && [line][1..] == [];
    } else {
      assert (lines + [line])[1..] == lines[1..] + [line];
      AllPiecesSnoc(lines[1..], line);
    }
  }

  // ---------------------------------------------------------------- counting

  lemma {:induction false} SectionsConcat(a: seq<Kind>, b: seq<Kind>)
    ensures Sections(a + b) == Sections(a) + Sections(b)
  {
    if b == [] {
      assert a + b == a;
    } else {
      assert (a + b)[..|a + b| - 1] == a + b[..|b| - 1];
      SectionsConcat(a, b[..|b| - 1]);
    }
  }

  lemma {:induction false} CountConcat(a: seq<Kind>, b: seq<Kind>, key: string)
    ensures Count(a + b, key) == Count(a, key) + Count(b, key)
  {
    if b == [] {
      assert a + b == a;
    } else {
      assert (a + b)[..|a + b| - 1] == a + b[..|b| - 1];
      CountConcat(a, b[..|b| - 1], key);
    }
  }

  lemma MapParts(first: seq<string>, heads: seq<string>, more: seq<string>, all: seq<string>, f: string -> Kind)
    requires first != []
    ensures Map([first[0]] + heads, f) == Map([first[0]], f) + Map(heads, f)
    ensures Map(first[1..] + more, f) == Map(first[1..], f) + Map(more, f)
    ensures Map(first + all, f) == Map([first[0]], f) + (Map(first[1..], f) + Map(all, f))
  {
    assert first + all == [first[0]] + (first[1..] + all);
    MapConcat([first[0]], heads, f);
    MapConcat(first[1..], more, f);
    MapConcat(first[1..], all, f);
    MapConcat([first[0]], first[1..] + all, f);
  }

  lemma KindsUnfold(lines: seq<string>)
    requires lines != []
    ensures var first, rest := Pieces(lines[0]), lines[1..];
            && Kinds(Heads(lines)) == Kinds([first[0]]) + Kinds(Heads(rest))
            && Kinds(Continuations(lines)) == Kinds(first[1..]) + Kinds(Continuations(rest))
            && Kinds(AllPieces(lines)) == Kinds([first[0]]) + (Kinds(first[1..]) + Kinds(AllPieces(rest)))
  {
    var first, rest := Pieces(lines[0]), lines[1..];
    MapParts(first, Heads(rest), Continuations(rest), AllPieces(rest), KindOf);
  }

  /** The first pieces and the continuations together are all pieces. */
  lemma {:induction false} CountSplits(lines: seq<string>, key: string)
    ensures Count(Kinds(AllPieces(lines)), key) == Count(Kinds(Heads(lines)), key) + Count(Kinds(Continuations(lines)), key)
  {
    if lines == [] {
    } else {
      var first, rest := Pieces(lines[0]), lines[1..];
      KindsUnfold(lines);
      CountSplits(rest, key);
      var h, m := Kinds([first[0]]), Kinds(first[1..]);
      CountConcat(h, Kinds(Heads(rest)), key);
      CountConcat(m, Kinds(Continuations(rest)), key);
      CountConcat(m, Kinds(AllPieces(rest)), key);
      CountConcat(h, m + Kinds(AllPieces(rest)), key);
    }
  }

  lemma {:induction false} SupportedSplits(lines: seq<string>)
    ensures AllSupported(Kinds(AllPieces(lines)))
            <==> AllSupported(Kinds(Heads(lines))) && AllSupported(Kinds(Continuations(lines)))
  {
    if lines == [] {
    } else {
      var first, rest := Pieces(lines[0]), lines[1..];
      KindsUnfold(lines);
      SupportedSplits(rest);
      var h, m := Kinds([first[0]]), Kinds(first[1..]);
      SupportedConcat(h, Kinds(Heads(rest)));
      SupportedConcat(m, Kinds(Continuations(rest)));
      SupportedConcat(m, Kinds(AllPieces(rest)));
      SupportedConcat(h, m + Kinds(AllPieces(rest)));
    }
  }

  lemma SupportedConcat(a: seq<Kind>, b: seq<Kind>)
    ensures AllSupported(a + b) <==> AllSupported(a) && AllSupported(b)
  {
    assert forall i :: 0 <= i < |a| ==> a[i] == (a + b)[i];
    assert forall i :: 0 <= i < |b| ==> b[i] == (a + b)[|a| + i];
  }

  ghost predicate SectionsAre(all: seq<Kind>, heads: seq<Kind>, more: seq<Kind>) {
    && |Sections(all)| == |Sections(heads)| + |Sections(more)|
    && (Sections(more) == [] ==> Sections(all) == Sections(heads))
  }

  lemma SectionsAreMore(all: seq<Kind>, heads: seq<Kind>, more: seq<Kind>, h: seq<Kind>, m: seq<Kind>)
    requires SectionsAre(all, heads, more)
    ensures SectionsAre(h + (m + all), h + heads, m + more)
  {
    SectionsConcat(h, heads);
    SectionsConcat(m, more);
    SectionsConcat(m, all);
    SectionsConcat(h, m + all);
  }

  lemma {:induction false} SectionsSplit(lines: seq<string>)
    ensures SectionsAre(Kinds(AllPieces(lines)), Kinds(Heads(lines)), Kinds(Continuations(lines)))
  {
    if lines == [] {
    } else {
      var first, rest := Pieces(lines[0]), lines[1..];
      KindsUnfold(lines);
      SectionsSplit(rest);
      SectionsAreMore(Kinds(AllPieces(rest)), Kinds(Heads(rest)), Kinds(Continuations(rest)),
                      Kinds([first[0]]), Kinds(first[1..]));
    }
  }

  // ---------------------------------------------------------------- the first pieces of a unit

  lemma {:induction false} KeyOfKeyed(key: string, value: string)
    requires '=' !in key
    ensures KeyOf(key + "=" + value) == Some(key)
  {
    if key == "" {
      assert key + "=" + value == "=" + value;
    } else {
      assert (key + "=" + value)[1..] == key[1..] + "=" + value;
      KeyOfKeyed(key[1..], value);
      assert [key[0]] + key[1..] == key;
    }
  }

  lemma {:induction false} OneOfAt(keys: seq<string>, i: nat)
    requires i < |keys|
    ensures OneOf(keys[i], keys)
  {
    if i == 0 {
    } else {
      OneOfAt(keys[1..], i - 1);
    }
  }

  predicate Letters(s: string) {
    s != "" && forall i :: 0 <= i < |s| ==> 'a' <= s[i] <= 'z' || 'A' <= s[i] <= 'Z'
  }

  lemma KeyedHead(key: string, value: string)
    requires Letters(key)
    ensures KindOf(Pieces(key + "=" + value)[0]) == Directive(key)
  {
    CleanPrefix(key + "=", value);
    KeyOfKeyed(key, Pieces(value)[0]);
  }

  function HeadKind(line: string): Kind {
    KindOf(Pieces(line)[0])
  }

  lemma {:induction false} HeadKinds(lines: seq<string>, kinds: seq<Kind>)
    requires |lines| == |kinds| && forall i :: 0 <= i < |lines| ==> HeadKind(lines[i]) == kinds[i]
    ensures Kinds(Heads(lines)) == kinds
  {
    if lines == [] {
    } else {
      HeadKinds(lines[1..], kinds[1..]);
      MapConcat([Pieces(lines[0])[0]], Heads(lines[1..]), KindOf);
      assert kinds == [kinds[0]] + kinds[1..];
    }
  }

  const UNIT: seq<Kind> := [Skipped, Section("[Unit]")]
  const SERVICE: seq<Kind> := [Directive("After"), Directive("Wants"), Skipped, Section("[Service]"), Directive("Type")]
  const LIMITS: seq<Kind> := [Directive("KillMode"), Directive("TimeoutStartSec"), Directive("TimeoutStopSec"), Directive("Restart")]
  const INSTALL: seq<Kind> := [Directive("NoNewPrivileges"), Skipped, Section("[Install]"), Directive("WantedBy")]

  function Environments(n: nat): seq<Kind> {
    if n == 0 then [] else Environments(n - 1) + [Directive("Environment")]
  }

  lemma KeyedLine(line: string, key: string)
    requires Letters(key) && |key| < |line| && line[..|key|] == key && line[|key|] == '='
    ensures HeadKind(line) == Directive(key)
  {
    var value := line[|key| + 1..];
    assert line == key + "=" + value;
    KeyedHead(key, value);
  }

  lemma CommentLine(rest: string)
    ensures HeadKind("#" + rest) == Skipped
  {
    CleanPrefix("#", rest);
  }

  lemma SectionLine(line: string)
    requires Clean(line) && line != "" && line[0] == '[' && line[|line| - 1] == ']'
    ensures HeadKind(line) == Section(line)
  {
    CleanIsOnePiece(line);
  }

  lemma FirstLines(lines: seq<string>)
    requires lines == HEADER
    ensures Kinds(Heads(lines)) == UNIT
  {
    var rest := lines[0][1..];
    assert lines[0] == "#" + rest;
    CommentLine(rest);
    SectionLine(lines[1]);
    HeadKinds(lines, UNIT);
  }

  lemma ServiceLines(lines: seq<string>)
    requires lines == SERVICE_HEAD
    ensures Kinds(Heads(lines)) == SERVICE
  {
    forall i | 0 <= i < 5 ensures HeadKind(lines[i]) == SERVICE[i] {
      match i {
        case 0 => KeyedLine(lines[0], "After");
        case 1 => KeyedLine(lines[1], "Wants");
        case 2 => CleanIsOnePiece(lines[2]);
        case 3 => SectionLine(lines[3]);
        case _ => KeyedLine(lines[4], "Type");
      }
    }
    HeadKinds(lines, SERVICE);
  }

  lemma TailParts()
    ensures TAIL[..4] == ["KillMode=control-group", "TimeoutStartSec=120", "TimeoutStopSec=30", "Restart=no"]
    ensures TAIL[4..8] == ["NoNewPrivileges=true", "", "[Install]", "WantedBy=default.target"]
  {
  }

  lemma LimitLines(lines: seq<string>)
    requires lines == ["KillMode=control-group", "TimeoutStartSec=120", "TimeoutStopSec=30", "Restart=no"]
    ensures Kinds(Heads(lines)) == LIMITS
  {
    forall i | 0 <= i < 4 ensures HeadKind(lines[i]) == LIMITS[i] {
      match i {
        case 0 => KeyedLine(lines[0], "KillMode");
        case 1 => KeyedLine(lines[1], "TimeoutStartSec");
        case 2 => KeyedLine(lines[2], "TimeoutStopSec");
        case _ => KeyedLine(lines[3], "Restart");
      }
    }
    HeadKinds(lines, LIMITS);
  }

  lemma InstallLines(lines: seq<string>)
    requires lines == ["NoNewPrivileges=true", "", "[Install]", "WantedBy=default.target"]
    ensures Kinds(Heads(lines)) == INSTALL
  {
    forall i | 0 <= i < 4 ensures HeadKind(lines[i]) == INSTALL[i] {
      match i {
        case 0 => KeyedLine(lines[0], "NoNewPrivileges");
        case 1 => CleanIsOnePiece(lines[1]);
        case 2 => SectionLine(lines[2]);
        case _ => KeyedLine(lines[3], "WantedBy");
      }
    }
    HeadKinds(lines, INSTALL);
  }

  lemma {:induction false} HeadsConcat(a: seq<string>, b: seq<string>)
    ensures Heads(a + b) == Heads(a) + Heads(b)
  {
    if a == [] {
      assert a + b == b;
    } else {
      assert (a + b)[1..] == a[1..] + b;
      HeadsConcat(a[1..], b);
    }
  }

  lemma HeadsSnoc(lines: seq<string>, line: string)
    ensures Kinds(Heads(lines + [line])) == Kinds(Heads(lines)) + [HeadKind(line)]
  {
    HeadsConcat(lines, [line]);
    assert Heads([line]) == [Pieces(line)[0]] + Heads([line][1..]);
    MapConcat(Heads(lines), [Pieces(line)[0]], KindOf);
  }

  lemma EnvironmentLineHead(line: string, item: (string, string))
    requires EnvironmentLine(item) == Some(line)
    ensures HeadKind(line) == Directive("Environment")
  {
    assert ENVIRONMENT <= line;
    KeyedLine(line, "Environment");
  }

  lemma {:induction false} EnvironmentHeads(items: seq<(string, string)>)
    requires EnvironmentLines(items).Some?
    ensures Kinds(Heads(EnvironmentLines(items).value)) == Environments(|items|)
  {
    if items == [] {
    } else {
      var front, last := items[..|items| - 1], items[|items| - 1];
      EnvironmentHeads(front);
      EnvironmentLineHead(EnvironmentLine(last).value, last);
      HeadsSnoc(EnvironmentLines(front).value, EnvironmentLine(last).value);
    }
  }

  lemma NamedLines(description: string, directory: string, command: string, id: string, path: string, arguments: string)
    requires description == DESCRIPTION + id + SUFFIX && directory == WORKING_DIRECTORY + path && command == EXEC_START + arguments
    ensures HeadKind(description) == Directive("Description")
    ensures HeadKind(directory) == Directive("WorkingDirectory")
    ensures HeadKind(command) == Directive("ExecStart")
  {
    KeyedLine(description, "Description");
    KeyedLine(directory, "WorkingDirectory");
    KeyedLine(command, "ExecStart");
  }

  // ---------------------------------------------------------------- the first pieces are accepted

  /** The sections and the three counted directives of a stretch of supported lines. */
  ghost predicate Holds(kinds: seq<Kind>, sections: seq<string>, directories: nat, commands: nat, killModes: nat) {
    && AllSupported(kinds) && Sections(kinds) == sections
    && Count(kinds, "WorkingDirectory") == directories && Count(kinds, "ExecStart") == commands
    && Count(kinds, "KillMode") == killModes
  }

  lemma HoldsConcat(a: seq<Kind>, b: seq<Kind>, s: seq<string>, t: seq<string>, d: nat, e: nat, c: nat, f: nat, k: nat, l: nat)
    requires Holds(a, s, d, c, k) && Holds(b, t, e, f, l)
    ensures Holds(a + b, s + t, d + e, c + f, k + l)
  {
    SupportedConcat(a, b);
    SectionsConcat(a, b);
    CountConcat(a, b, "WorkingDirectory");
    CountConcat(a, b, "ExecStart");
    CountConcat(a, b, "KillMode");
  }

  function UnitKinds(n: nat): seq<Kind> {
    UNIT + [Directive("Description")] + SERVICE + [Directive("WorkingDirectory"), Directive("ExecStart")]
    + Environments(n) + LIMITS + INSTALL
  }

  lemma CountedKeys(i: nat)
    requires i < |ALLOWED|
    ensures ALLOWED[i] == "WorkingDirectory" <==> i == 4
    ensures ALLOWED[i] == "ExecStart" <==> i == 5
    ensures ALLOWED[i] == "KillMode" <==> i == 7
  {
    if i == 12 {
      assert ALLOWED[i][0] == 'W' && ALLOWED[7][0] == 'K';
    }
  }

  lemma CountOne(kind: Kind, key: string)
    ensures Count([kind], key) == if kind == Directive(key) then 1 else 0
    ensures Sections([kind]) == if kind.Section? then [kind.name] else []
  {
    assert [kind][..0] == [];
  }

  lemma DirectiveHolds(i: nat)
    requires i < |ALLOWED|
    ensures Holds([Directive(ALLOWED[i])], [], if i == 4 then 1 else 0, if i == 5 then 1 else 0, if i == 7 then 1 else 0)
  {
    OneOfAt(ALLOWED, i);
    CountedKeys(i);
    CountOne(Directive(ALLOWED[i]), "WorkingDirectory");
    CountOne(Directive(ALLOWED[i]), "ExecStart");
    CountOne(Directive(ALLOWED[i]), "KillMode");
  }

  lemma SkippedHolds()
    ensures Holds([Skipped], [], 0, 0, 0)
  {
    CountOne(Skipped, "WorkingDirectory");
    CountOne(Skipped, "ExecStart");
    CountOne(Skipped, "KillMode");
  }

  lemma SectionHolds(name: string)
    ensures Holds([Section(name)], [name], 0, 0, 0)
  {
    CountOne(Section(name), "WorkingDirectory");
    CountOne(Section(name), "ExecStart");
    CountOne(Section(name), "KillMode");
  }

  lemma AddDirective(kinds: seq<Kind>, s: seq<string>, d: nat, c: nat, k: nat, i: nat)
    requires i < |ALLOWED| && Holds(kinds, s, d, c, k)
    ensures Holds(kinds + [Directive(ALLOWED[i])], s, d + (if i == 4 then 1 else 0), c + (if i == 5 then 1 else 0),
                  k + (if i == 7 then 1 else 0))
  {
    DirectiveHolds(i);
    HoldsConcat(kinds, [Directive(ALLOWED[i])], s, [], d, if i == 4 then 1 else 0, c, if i == 5 then 1 else 0,
                k, if i == 7 then 1 else 0);
    assert s + [] == s;
  }

  lemma AddSkippedAndSection(kinds: seq<Kind>, s: seq<string>, d: nat, c: nat, k: nat, name: string)
    requires Holds(kinds, s, d, c, k)
    ensures Holds(kinds + [Skipped, Section(name)], s + [name], d, c, k)
  {
    SkippedHolds();
    SectionHolds(name);
    HoldsConcat([Skipped], [Section(name)], [], [name], 0, 0, 0, 0, 0, 0);
    assert [Skipped] + [Section(name)] == [Skipped, Section(name)];
    HoldsConcat(kinds, [Skipped, Section(name)], s, [name], d, 0, c, 0, k, 0);
  }

  lemma BlocksSpelledOut(kinds: seq<Kind>)
    ensures kinds + [Directive("After")] + [Directive("Wants")] + [Skipped, Section("[Service]")] + [Directive("Type")]
            == kinds + SERVICE
    ensures kinds + [Directive("KillMode")] + [Directive("TimeoutStartSec")] + [Directive("TimeoutStopSec")]
            + [Directive("Restart")] == kinds + LIMITS
    ensures kinds + [Directive("NoNewPrivileges")] + [Skipped, Section("[Install]")] + [Directive("WantedBy")]
            == kinds + INSTALL
  {
  }

  lemma UnitPart()
    ensures Holds(UNIT + [Directive("Description")], ["[Unit]"], 0, 0, 0)
  {
    AddSkippedAndSection([], [], 0, 0, 0, "[Unit]");
    assert [] + [Skipped, Section("[Unit]")] == UNIT;
    AddDirective(UNIT, ["[Unit]"], 0, 0, 0, 0);
  }

  lemma ServicePart(kinds: seq<Kind>, s: seq<string>)
    requires Holds(kinds, s, 0, 0, 0)
    ensures Holds(kinds + SERVICE, s + ["[Service]"], 0, 0, 0)
  {
    AddDirective(kinds, s, 0, 0, 0, 1);
    var a := kinds + [Directive("After")];
    AddDirective(a, s, 0, 0, 0, 2);
    var b := a + [Directive("Wants")];
    AddSkippedAndSection(b, s, 0, 0, 0, "[Service]");
    var c := b + [Skipped, Section("[Service]")];
    AddDirective(c, s + ["[Service]"], 0, 0, 0, 3);
    BlocksSpelledOut(kinds);
  }

  lemma CommandPart(kinds: seq<Kind>, s: seq<string>)
    requires Holds(kinds, s, 0, 0, 0)
    ensures Holds(kinds + [Directive("WorkingDirectory"), Directive("ExecStart")], s, 1, 1, 0)
  {
    AddDirective(kinds, s, 0, 0, 0, 4);
    var a := kinds + [Directive("WorkingDirectory")];
    AddDirective(a, s, 1, 0, 0, 5);
    assert a + [Directive("ExecStart")] == kinds + [Directive("WorkingDirectory"), Directive("ExecStart")];
  }

  lemma AddPair(kinds: seq<Kind>, s: seq<string>, d: nat, c: nat, k: nat, i: nat)
    requires 8 <= i < |ALLOWED| - 1 && Holds(kinds, s, d, c, k)
    ensures Holds(kinds + [Directive(ALLOWED[i])] + [Directive(ALLOWED[i + 1])], s, d, c, k)
  {
    AddDirective(kinds, s, d, c, k, i);
    AddDirective(kinds + [Directive(ALLOWED[i])], s, d, c, k, i + 1);
  }

  lemma LimitsPart(kinds: seq<Kind>, s: seq<string>)
    requires Holds(kinds, s, 1, 1, 0)
    ensures Holds(kinds + LIMITS, s, 1, 1, 1)
  {
    var a := kinds + [Directive("KillMode")];
    AddDirective(kinds, s, 1, 1, 0, 7);
    AddPair(a, s, 1, 1, 1, 8);
    AddDirective(a + [Directive("TimeoutStartSec")] + [Directive("TimeoutStopSec")], s, 1, 1, 1, 10);
    BlocksSpelledOut(kinds);
  }

  lemma InstallPart(kinds: seq<Kind>, s: seq<string>)
    requires Holds(kinds, s, 1, 1, 1)
    ensures Holds(kinds + INSTALL, s + ["[Install]"], 1, 1, 1)
  {
    var a := kinds + [Directive("NoNewPrivileges")];
    AddDirective(kinds, s, 1, 1, 1, 11);
    InstallEnds(a, s);
    BlocksSpelledOut(kinds);
  }

  lemma InstallEnds(kinds: seq<Kind>, s: seq<string>)
    requires Holds(kinds, s, 1, 1, 1)
    ensures Holds(kinds + [Skipped, Section("[Install]")] + [Directive("WantedBy")], s + ["[Install]"], 1, 1, 1)
  {
    AddSkippedAndSection(kinds, s, 1, 1, 1, "[Install]");
    AddDirective(kinds + [Skipped, Section("[Install]")], s + ["[Install]"], 1, 1, 1, 12);
  }

  lemma {:induction false} EnvironmentsHold(n: nat)
    ensures Holds(Environments(n), [], 0, 0, 0)
  {
    if n == 0 {
    } else {
      EnvironmentsHold(n - 1);
      AddDirective(Environments(n - 1), [], 0, 0, 0, 6);
    }
  }

  lemma FirstPartHolds()
    ensures Holds(UNIT + [Directive("Description")] + SERVICE + [Directive("WorkingDirectory"), Directive("ExecStart")],
                  ["[Unit]"] + ["[Service]"], 1, 1, 0)
  {
    UnitPart();
    ServicePart(UNIT + [Directive("Description")], ["[Unit]"]);
    CommandPart(UNIT + [Directive("Description")] + SERVICE, ["[Unit]"] + ["[Service]"]);
  }

  lemma LastPartHolds(kinds: seq<Kind>, s: seq<string>, n: nat)
    requires Holds(kinds, s, 1, 1, 0)
    ensures Holds(kinds + Environments(n) + LIMITS + INSTALL, s + ["[Install]"], 1, 1, 1)
  {
    EnvironmentsHold(n);
    HoldsConcat(kinds, Environments(n), s, [], 1, 0, 1, 0, 0, 0);
    assert s + [] == s;
    LimitsPart(kinds + Environments(n), s);
    InstallPart(kinds + Environments(n) + LIMITS, s);
  }

  /** The first pieces alone are what the validator wants. */
  lemma UnitKindsHold(n: nat)
    ensures Holds(UnitKinds(n), SECTIONS, 1, 1, 1)
  {
    FirstPartHolds();
    LastPartHolds(UNIT + [Directive("Description")] + SERVICE + [Directive("WorkingDirectory"), Directive("ExecStart")],
                  ["[Unit]"] + ["[Service]"], n);
    assert ["[Unit]"] + ["[Service]"] + ["[Install]"] == SECTIONS;
  }

  // ---------------------------------------------------------------- the unit as a whole

  lemma KindsHeadsConcat(a: seq<string>, b: seq<string>)
    ensures Kinds(Heads(a + b)) == Kinds(Heads(a)) + Kinds(Heads(b))
  {
    HeadsConcat(a, b);
    MapConcat(Heads(a), Heads(b), KindOf);
  }

  /** All lines of a unit but the empty one after the last newline. */
  function Body(description: string, directory: string, command: string, environment: seq<string>): seq<string> {
    HEADER + [description] + SERVICE_HEAD + [directory, command] + environment + TAIL[..4] + TAIL[4..8]
  }

  lemma FrameIsBody(description: string, directory: string, command: string, environment: seq<string>)
    ensures Frame(description, directory, command, environment) == Body(description, directory, command, environment) + [""]
  {
    assert TAIL == TAIL[..4] + TAIL[4..8] + [""];
  }

  lemma OneHead(line: string)
    ensures Kinds(Heads([line])) == [HeadKind(line)]
  {
    HeadKinds([line], [HeadKind(line)]);
  }

  lemma BodyHeads(description: string, directory: string, command: string, environment: seq<string>, n: nat)
    requires HeadKind(description) == Directive("Description")
    requires HeadKind(directory) == Directive("WorkingDirectory") && HeadKind(command) == Directive("ExecStart")
    requires Kinds(Heads(environment)) == Environments(n)
    ensures Kinds(Heads(Body(description, directory, command, environment))) == UnitKinds(n)
  {
    CommandHeads(directory, command);
    OneHead(description);
    FixedHeads(HEADER, SERVICE_HEAD, TAIL[..4], TAIL[4..8]);
    SevenParts(HEADER, [description], SERVICE_HEAD, [directory, command], environment, TAIL[..4], TAIL[4..8]);
  }

  lemma CommandHeads(directory: string, command: string)
    requires HeadKind(directory) == Directive("WorkingDirectory") && HeadKind(command) == Directive("ExecStart")
    ensures Kinds(Heads([directory, command])) == [Directive("WorkingDirectory"), Directive("ExecStart")]
  {
    HeadKinds([directory, command], [Directive("WorkingDirectory"), Directive("ExecStart")]);
  }

  lemma FixedHeads(header: seq<string>, service: seq<string>, limits: seq<string>, install: seq<string>)
    requires header == HEADER && service == SERVICE_HEAD && limits == TAIL[..4] && install == TAIL[4..8]
    ensures Kinds(Heads(header)) == UNIT && Kinds(Heads(service)) == SERVICE
    ensures Kinds(Heads(limits)) == LIMITS && Kinds(Heads(install)) == INSTALL
  {
    TailParts();
    FirstLines(header);
    ServiceLines(service);
    LimitLines(limits);
    InstallLines(install);
  }

  lemma SevenParts(a: seq<string>, b: seq<string>, c: seq<string>, d: seq<string>, e: seq<string>, f: seq<string>, g: seq<string>)
    ensures Kinds(Heads(a + b + c + d + e + f + g))
            == Kinds(Heads(a)) + Kinds(Heads(b)) + Kinds(Heads(c)) + Kinds(Heads(d)) + Kinds(Heads(e)) + Kinds(Heads(f))
               + Kinds(Heads(g))
  {
    KindsHeadsConcat(a, b);
    KindsHeadsConcat(a + b, c);
    KindsHeadsConcat(a + b + c, d);
    KindsHeadsConcat(a + b + c + d, e);
    KindsHeadsConcat(a + b + c + d + e, f);
    KindsHeadsConcat(a + b + c + d + e + f, g);
  }

  /** A line the validator reads over: blank, a comment, or an allowed directive it does not count. */
  predicate Harmless(kind: Kind) {
    || kind.Skipped?
    || (kind.Directive? && OneOf(kind.key, ALLOWED)
        && kind.key != "WorkingDirectory" && kind.key != "ExecStart" && kind.key != "KillMode")
  }

  predicate AllHarmless(kinds: seq<Kind>) {
    forall i :: 0 <= i < |kinds| ==> Harmless(kinds[i])
  }

  ghost predicate Neutral(kinds: seq<Kind>) {
    Holds(kinds, [], 0, 0, 0)
  }

  lemma NeutralConcat(a: seq<Kind>, b: seq<Kind>)
    ensures Neutral(a + b) <==> Neutral(a) && Neutral(b)
  {
    SupportedConcat(a, b);
    SectionsConcat(a, b);
    CountConcat(a, b, "WorkingDirectory");
    CountConcat(a, b, "ExecStart");
    CountConcat(a, b, "KillMode");
  }

  lemma HarmlessOne(kind: Kind)
    ensures Neutral([kind]) <==> Harmless(kind)
  {
    CountOne(kind, "WorkingDirectory");
    CountOne(kind, "ExecStart");
    CountOne(kind, "KillMode");
    assert [kind][0] == kind;
  }

  lemma {:induction false} HarmlessHolds(kinds: seq<Kind>)
    ensures AllHarmless(kinds) <==> Neutral(kinds)
  {
    if kinds == [] {
    } else {
      var front, last := kinds[..|kinds| - 1], kinds[|kinds| - 1];
      assert kinds == front + [last];
      HarmlessHolds(front);
      HarmlessOne(last);
      NeutralConcat(front, [last]);
    }
  }

  lemma AcceptedIffHarmless(lines: seq<string>)
    requires Holds(Kinds(Heads(lines)), SECTIONS, 1, 1, 1)
    ensures Accepted(Kinds(AllPieces(lines))) <==> AllHarmless(Kinds(Continuations(lines)))
  {
    SupportedSplits(lines);
    SectionsSplit(lines);
    CountSplits(lines, "WorkingDirectory");
    CountSplits(lines, "ExecStart");
    CountSplits(lines, "KillMode");
    HarmlessHolds(Kinds(Continuations(lines)));
  }

  lemma {:induction false} ContinuationsSnoc(lines: seq<string>, line: string)
    ensures Continuations(lines + [line]) == Continuations(lines) + Pieces(line)[1..]
  {
    if lines == [] {
      assert lines + [line] == [line] && [line][1..] == [];
    } else {
      var more := Pieces(lines[0])[1..];
      assert (lines + [line])[1..] == lines[1..] + [line];
      ContinuationsSnoc(lines[1..], line);
      assert more + (Continuations(lines[1..]) + Pieces(line)[1..]) == more + Continuations(lines[1..]) + Pieces(line)[1..];
    }
  }

  lemma {:induction false} JoinEnds(lines: seq<string>, d: char)
    requires lines != []
    ensures Join(lines + [""], d) == Join(lines, d) + [d]
  {
    if |lines| == 1 {
      assert (lines + [""])[1..] == [""];
    } else {
      assert (lines + [""])[1..] == lines[1..] + [""];
      JoinEnds(lines[1..], d);
    }
  }

  lemma {:induction false} JoinAdds(lines: seq<string>, d: char, c: char)
    requires c != d && forall i :: 0 <= i < |lines| ==> c !in lines[i]
    ensures c !in Join(lines, d)
  {
    if lines == [] {
    } else {
      JoinAdds(lines[1..], d, c);
    }
  }

  /** The lines the validator sees are the pieces of all lines but the last. */
  lemma SplitLinesOfUnit(body: seq<string>)
    requires body != []
    ensures SplitLines(Join(body + [""], '\n')) == AllPieces(body)
    ensures Continuations(body + [""]) == Continuations(body)
  {
    JoinPieces(body + [""]);
    AllPiecesSnoc(body, "");
    ContinuationsSnoc(body, "");
    CleanIsOnePiece("");
  }

  /** Neither the arguments nor the names and values of the environment hold d. */
  predicate Lacks(m: Manifest, d: char) {
    && (forall i :: 0 <= i < |m.command| ==> d !in m.command[i])
    && (forall item :: item in m.environment ==> d !in item.0 + "=" + item.1)
  }

  /** A character outside the visible ones is in a line only if it is in a value. */
  lemma LinesLack(m: Manifest, d: char)
    requires UnitLines(m).Some? && !Visible(d) && Lacks(m, d)
    ensures forall i :: 0 <= i < |UnitLines(m).value| ==> d !in UnitLines(m).value[i]
  {
    var items := SortItems(m.environment);
    SortItemsSorts(m.environment);
    forall i | 0 <= i < |items| ensures d !in items[i].0 + "=" + items[i].1 {
      assert items[i] in multiset(items);
    }
    var quoted := QuoteAll(m.command).value;
    VariableLinesAdd(m, quoted, d);
    EnvironmentLinesAdd(items, d);
    FrameAdds(DESCRIPTION + m.id + SUFFIX, WORKING_DIRECTORY + EscapeBytes(m.workingDir), EXEC_START + Join(quoted, ' '),
              EnvironmentLines(items).value, d);
  }

  lemma PrintedLacksControl(m: Manifest, d: char)
    requires UnitLines(m).Some? && (d == '\n' || d == '\r' || d == '\0')
    ensures Lacks(m, d)
  {
    forall i | 0 <= i < |m.command| ensures d !in m.command[i] {
      QuotedHaveNoControl(m.command, i);
    }
    var items := SortItems(m.environment);
    SortItemsSorts(m.environment);
    forall item | item in m.environment ensures d !in item.0 + "=" + item.1 {
      assert item in multiset(items);
      var i :| 0 <= i < |items| && items[i] == item;
      PrintedHaveNoControl(items, i);
    }
  }

  /** The text render_user_unit hands to the validator. */
  function Rendered(m: Manifest): string
    requires UnitLines(m).Some?
  {
    Join(UnitLines(m).value, '\n')
  }

  lemma RenderedEnds(m: Manifest, body: seq<string>)
    requires UnitLines(m) == Some(body + [""]) && body != []
    ensures Rendered(m) != "" && Rendered(m)[|Rendered(m)| - 1] == '\n' && '\r' !in Rendered(m) && '\0' !in Rendered(m)
  {
    JoinEnds(body, '\n');
    PrintedLacksControl(m, '\r');
    PrintedLacksControl(m, '\0');
    LinesLack(m, '\r');
    LinesLack(m, '\0');
    JoinAdds(UnitLines(m).value, '\n', '\r');
    JoinAdds(UnitLines(m).value, '\n', '\0');
  }

  lemma BodyOfUnit(m: Manifest) returns (body: seq<string>)
    requires UnitLines(m).Some?
    ensures body != [] && UnitLines(m).value == body + [""]
    ensures Holds(Kinds(Heads(body)), SECTIONS, 1, 1, 1)
  {
    var items := SortItems(m.environment);
    var arguments := Join(QuoteAll(m.command).value, ' ');
    var path := EscapeBytes(m.workingDir);
    var description, directory, command := DESCRIPTION + m.id + SUFFIX, WORKING_DIRECTORY + path, EXEC_START + arguments;
    var environment := EnvironmentLines(items).value;
    body := Body(description, directory, command, environment);
    NamedLines(description, directory, command, m.id, path, arguments);
    EnvironmentHeads(items);
    BodyHeads(description, directory, command, environment, |items|);
    UnitKindsHold(|items|);
    FrameIsBody(description, directory, command, environment);
  }

  /** A printed unit passes the validator exactly when it is small enough and whatever the other line
      boundaries split off its lines is read over. */
  lemma ValidatesExactly(m: Manifest)
    requires UnitLines(m).Some?
    ensures Validates(Rendered(m)) <==>
            Utf8Size(Rendered(m)) <= MAX_UNIT_BYTES && AllHarmless(Kinds(Continuations(UnitLines(m).value)))
  {
    var body := BodyOfUnit(m);
    RenderedEnds(m, body);
    SplitLinesOfUnit(body);
    AcceptedIffHarmless(body);
  }

  lemma {:induction false} CleanHaveNoContinuation(lines: seq<string>)
    requires forall i :: 0 <= i < |lines| ==> Clean(lines[i])
    ensures Continuations(lines) == []
  {
    if lines == [] {
    } else {
      CleanIsOnePiece(lines[0]);
      CleanHaveNoContinuation(lines[1..]);
    }
  }

  /** Without such characters in the arguments and the environment, only the size decides. */
  lemma SizeDecides(m: Manifest)
    requires UnitLines(m).Some? && forall d :: Boundary(d) ==> Lacks(m, d)
    ensures Validates(Rendered(m)) <==> Utf8Size(Rendered(m)) <= MAX_UNIT_BYTES
  {
    var lines := UnitLines(m).value;
    forall i | 0 <= i < |lines| ensures Clean(lines[i]) {
      forall j | 0 <= j < |lines[i]| ensures !Boundary(lines[i][j]) {
        var d := lines[i][j];
        if Boundary(d) {
          LinesLack(m, d);
        }
      }
    }
    CleanHaveNoContinuation(lines);
    ValidatesExactly(m);
  }

  lemma {:induction false} ContinuationIsSeen(lines: seq<string>, i: nat, j: nat)
    requires i < |lines| && 1 <= j < |Pieces(lines[i])|
    ensures Pieces(lines[i])[j] in Continuations(lines)
  {
    if i == 0 {
      assert Pieces(lines[0])[1..][j - 1] == Pieces(lines[0])[j];
    } else {
      ContinuationIsSeen(lines[1..], i - 1, j);
    }
  }

  lemma RefusedByOnePiece(m: Manifest, i: nat, j: nat)
    requires UnitLines(m).Some? && i < |UnitLines(m).value| && 1 <= j < |Pieces(UnitLines(m).value[i])|
    requires !Harmless(KindOf(Pieces(UnitLines(m).value[i])[j]))
    ensures !Validates(Rendered(m))
  {
    var lines := UnitLines(m).value;
    var piece := Pieces(lines[i])[j];
    ContinuationIsSeen(lines, i, j);
    var k :| 0 <= k < |Continuations(lines)| && Continuations(lines)[k] == piece;
    assert Kinds(Continuations(lines))[k] == KindOf(piece);
    ValidatesExactly(m);
  }

  lemma TabbedLine(line: string)
    requires line == ENVIRONMENT + ("\"" + "A=\U{b}" + "\"")
    ensures Pieces(line)[1..] == ["\""]
  {
    var prefix, rest := ENVIRONMENT + "\"A=", "\"";
    assert line == prefix + ("\U{b}" + rest);
    CleanPrefix(prefix, "\U{b}" + rest);
    assert ("\U{b}" + rest)[1..] == rest;
    CleanIsOnePiece(rest);
  }

  lemma PlainText(text: string)
    requires text == "A=\U{b}"
    ensures !HasControl(text) && Escape(text, false) == text
  {
    assert Escape("A=\U{b}", false) == "A=\U{b}";
  }

  lemma TabbedItem(item: (string, string))
    requires item == ("A", "\U{b}")
    ensures EnvironmentLine(item) == Some(ENVIRONMENT + ("\"" + "A=\U{b}" + "\""))
  {
    var text := item.0 + "=" + item.1;
    assert text == "A=\U{b}";
    PlainText(text);
    ChainIsOnePass(text, false);
    assert !HasControl(item.1);
    assert Quote(text, false) == Some("\"" + ReplaceChain(text, false) + "\"");
  }

  lemma OnlyItem(m: Manifest, item: (string, string), line: string)
    requires m.environment == [item] && UnitLines(m).Some? && EnvironmentLine(item) == Some(line)
    ensures UnitLines(m).value[10] == line
  {
    var items := SortItems(m.environment);
    assert m.environment[1..] == [] && SortItems([]) == [];
    assert Insert(item, []) == [item];
    assert items == [item] && items[..|items| - 1] == [];
    assert EnvironmentLines([]) == Some([]);
    assert EnvironmentLines(items) == Some([] + [line]);
  }

  /** A vertical tab in a value is printed and read back, but the unit is refused. */
  lemma VerticalTabIsRefused(m: Manifest)
    requires m.environment == [("A", "\U{b}")] && UnitLines(m).Some?
    ensures !Validates(Rendered(m))
  {
    var item := m.environment[0];
    TabbedItem(item);
    var line := EnvironmentLine(item).value;
    TabbedLine(line);
    OnlyItem(m, item, line);
    var piece := Pieces(line)[1];
    assert piece == Pieces(line)[1..][0] == "\"";
    assert KindOf(piece) == NoSeparator;
    RefusedByOnePiece(m, 10, 1);
  }

  // ---------------------------------------------------------------- what is accepted, in terms of the lines

  predicate Blank(line: string) {
    line == "" || line[0] == '#'
  }

  predicate Bracketed(line: string) {
    line != "" && line[0] == '[' && line[|line| - 1] == ']'
  }

  /** The line starts with the key and an equals sign. */
  predicate Sets(line: string, key: string) {
    |key| < |line| && line[..|key|] == key && line[|key|] == '='
  }

  lemma {:induction false} KeyOfIff(line: string, key: string)
    requires '=' !in key
    ensures KeyOf(line) == Some(key) <==> Sets(line, key)
  {
    if line == "" {
    } else if key == "" {
      assert line[..0] == "";
    } else {
      KeyOfIff(line[1..], key[1..]);
      SetsTail(line, key);
      assert key == [key[0]] + key[1..];
      assert key[0] != '=';
    }
  }

  lemma SetsTail(line: string, key: string)
    requires line != "" && key != ""
    ensures Sets(line, key) <==> line[0] == key[0] && Sets(line[1..], key[1..])
  {
    if |key| < |line| {
      assert line[..|key|] == [line[0]] + line[1..][..|key| - 1];
      assert key == [key[0]] + key[1..];
    }
  }

  lemma {:induction false} OneOfIff(key: string, keys: seq<string>)
    ensures OneOf(key, keys) <==> key in keys
  {
    if keys == [] {
    } else {
      OneOfIff(key, keys[1..]);
      assert keys == [keys[0]] + keys[1..];
    }
  }

  lemma KeyHasNoSeparator(line: string)
    ensures KeyOf(line).Some? ==> '=' !in KeyOf(line).value
  {
  }

  lemma SupportedIff(line: string)
    ensures Supported(KindOf(line)) <==>
            Blank(line) || Bracketed(line) || exists key :: key in ALLOWED && '=' !in key && Sets(line, key)
  {
    if !Blank(line) && !Bracketed(line) {
      if KeyOf(line).Some? {
        OneOfIff(KeyOf(line).value, ALLOWED);
        KeyHasNoSeparator(line);
        KeyOfIff(line, KeyOf(line).value);
      }
      if key :| key in ALLOWED && '=' !in key && Sets(line, key) {
        KeyOfIff(line, key);
        OneOfIff(key, ALLOWED);
      }
    }
  }

  /** The places of the lines that set a key. */
  function Setting(lines: seq<string>, key: string): set<int> {
    set i | 0 <= i < |lines| && !Blank(lines[i]) && !Bracketed(lines[i]) && Sets(lines[i], key)
  }

  lemma SettingSnoc(front: seq<string>, last: string, key: string)
    ensures Setting(front + [last], key)
            == if !Blank(last) && !Bracketed(last) && Sets(last, key) then Setting(front, key) + {|front|} else Setting(front, key)
  {
  }

  lemma {:induction false} CountIsSetting(lines: seq<string>, key: string)
    requires '=' !in key
    ensures Count(Kinds(lines), key) == |Setting(lines, key)|
  {
    if lines == [] {
    } else {
      var front, last := lines[..|lines| - 1], lines[|lines| - 1];
      CountIsSetting(front, key);
      SettingSnoc(front, last, key);
      KeyOfIff(last, key);
      MapConcat(front, [last], KindOf);
      assert lines == front + [last];
      assert Kinds(lines)[..|lines| - 1] == Kinds(front);
    }
  }

  lemma {:induction false} SectionsAreBracketed(lines: seq<string>)
    ensures Sections(Kinds(lines)) == Filter(lines, Bracketed)
  {
    if lines == [] {
    } else {
      var front, last := lines[..|lines| - 1], lines[|lines| - 1];
      SectionsAreBracketed(front);
      FilterSnoc(front, last, Bracketed);
      assert lines == front + [last];
      assert Kinds(lines)[..|lines| - 1] == Kinds(front);
    }
  }

  /** For any text: the validator accepts it exactly when it is small, ends with a newline, has no carriage
      return or null, every line is blank, a comment, bracketed or sets an allowed key, the bracketed lines are
      the three sections in order, and each of the three required keys is set on exactly one line. */
  lemma AcceptsIff(content: string)
    ensures var lines := SplitLines(content);
            Validates(content) <==>
            && Utf8Size(content) <= 65536
            && content != "" && content[|content| - 1] == '\n' && '\r' !in content && '\0' !in content
            && (forall i :: 0 <= i < |lines| ==>
                  Blank(lines[i]) || Bracketed(lines[i]) || exists key :: key in ALLOWED && '=' !in key && Sets(lines[i], key))
            && Filter(lines, Bracketed) == ["[Unit]", "[Service]", "[Install]"]
            && |Setting(lines, "WorkingDirectory")| == |Setting(lines, "ExecStart")| == |Setting(lines, "KillMode")| == 1
  {
    RequiredKeys();
    AcceptedIff(SplitLines(content), "WorkingDirectory", "ExecStart", "KillMode");
  }

  lemma RequiredKeys()
    ensures '=' !in "WorkingDirectory" && '=' !in "ExecStart" && '=' !in "KillMode"
  {
  }

  lemma AcceptedIff(lines: seq<string>, directory: string, command: string, mode: string)
    requires directory == "WorkingDirectory" && command == "ExecStart" && mode == "KillMode"
    requires '=' !in directory && '=' !in command && '=' !in mode
    ensures Accepted(Kinds(lines)) <==>
            && (forall i :: 0 <= i < |lines| ==>
                  Blank(lines[i]) || Bracketed(lines[i]) || exists key :: key in ALLOWED && '=' !in key && Sets(lines[i], key))
            && Filter(lines, Bracketed) == SECTIONS
            && |Setting(lines, directory)| == |Setting(lines, command)| == |Setting(lines, mode)| == 1
  {
    AllSupportedIff(lines);
    SectionsAreBracketed(lines);
    CountIsSetting(lines, directory);
    CountIsSetting(lines, command);
    CountIsSetting(lines, mode);
  }

  lemma AllSupportedIff(lines: seq<string>)
    ensures AllSupported(Kinds(lines)) <==> forall i :: 0 <= i < |lines| ==>
              Blank(lines[i]) || Bracketed(lines[i]) || exists key :: key in ALLOWED && '=' !in key && Sets(lines[i], key)
  {
    forall i | 0 <= i < |lines|
      ensures Supported(Kinds(lines)[i]) <==>
              Blank(lines[i]) || Bracketed(lines[i]) || exists key :: key in ALLOWED && '=' !in key && Sets(lines[i], key)
    {
      SupportedIff(lines[i]);
    }
  }
}
