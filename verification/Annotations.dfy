/** GitHub Actions annotation lines: the escaping, the formatter, and the reader that undoes it. */
module Annotations {
  import opened Options
  import opened Sequences
  import opened Text

  // ---------------------------------------------------------------- escaping

  /** `s.replace(c, put)` for a one-character pattern */
  function Replace(s: string, c: char, put: string): string {
    if s == "" then "" else (if s[0] == c then put else [s[0]]) + Replace(s[1..], c, put)
  }

  function EscapeMessage(s: string): string {
    Replace(Replace(Replace(s, '%', "%25"), '\r', "%0D"), '\n', "%0A")
  }

  function EscapeProperty(s: string): string {
    Replace(Replace(EscapeMessage(s), ':', "%3A"), ',', "%2C")
  }

  function MapChars(s: string, f: char -> string): string {
    if s == "" then "" else f(s[0]) + MapChars(s[1..], f)
  }

  function MessageChar(c: char): string {
    match c
    case '%' => "%25"
    case '\r' => "%0D"
    case '\n' => "%0A"
    case _ => [c]
  }

  function PropertyChar(c: char): string {
    match c
    case ':' => "%3A"
    case ',' => "%2C"
    case _ => MessageChar(c)
  }

  lemma {:induction false} ReplaceConcat(a: string, b: string, c: char, put: string)
    ensures Replace(a + b, c, put) == Replace(a, c, put) + Replace(b, c, put)
  {
    if a == "" {
      assert a + b == b;
    } else {
      TailOfConcat(a, b);
      ReplaceConcat(a[1..], b, c, put);
      Assoc(if a[0] == c then put else [a[0]], Replace(a[1..], c, put), Replace(b, c, put));
    }
  }

  lemma EscapeConcat(a: string, b: string)
    ensures EscapeMessage(a + b) == EscapeMessage(a) + EscapeMessage(b)
    ensures EscapeProperty(a + b) == EscapeProperty(a) + EscapeProperty(b)
  {
    hide Replace;
    ReplaceConcat(a, b, '%', "%25");
    var a1, b1 := Replace(a, '%', "%25"), Replace(b, '%', "%25");
    ReplaceConcat(a1, b1, '\r', "%0D");
    var a2, b2 := Replace(a1, '\r', "%0D"), Replace(b1, '\r', "%0D");
    ReplaceConcat(a2, b2, '\n', "%0A");
    ReplaceConcat(EscapeMessage(a), EscapeMessage(b), ':', "%3A");
    ReplaceConcat(Replace(EscapeMessage(a), ':', "%3A"), Replace(EscapeMessage(b), ':', "%3A"), ',', "%2C");
  }

  /** Without the replaced character a text stays. */
  lemma {:induction false} ReplaceNothing(s: string, c: char, put: string)
    requires c !in s
    ensures Replace(s, c, put) == s
  {
    if s != "" {
      ReplaceNothing(s[1..], c, put);
      assert s == [s[0]] + s[1..];
    }
  }

  lemma ReplaceOne(c: char, put: string)
    ensures Replace([c], c, put) == put
  {
    assert [c][1..] == "";
    assert put + "" == put;
  }

  lemma EscapeOne(c: char)
    ensures EscapeMessage([c]) == MessageChar(c)
    ensures EscapeProperty([c]) == PropertyChar(c)
  {
    hide Replace;
    var s := [c];
    assert "%25" == ['%', '2', '5'] && "%0D" == ['%', '0', 'D'] && "%0A" == ['%', '0', 'A'] && "%3A" == ['%', '3', 'A'];
    if c == '%' { ReplaceOne(c, "%25"); s := "%25"; } else { ReplaceNothing(s, '%', "%25"); }
    if c == '\r' { ReplaceOne(c, "%0D"); s := "%0D"; } else { ReplaceNothing(s, '\r', "%0D"); }
    if c == '\n' { ReplaceOne(c, "%0A"); s := "%0A"; } else { ReplaceNothing(s, '\n', "%0A"); }
    if c == ':' { ReplaceOne(c, "%3A"); s := "%3A"; } else { ReplaceNothing(s, ':', "%3A"); }
    if c == ',' { ReplaceOne(c, "%2C"); } else { ReplaceNothing(s, ',', "%2C"); }
  }

  /** The chained replaces do what one simultaneous character map does: no replacement text is ever
      escaped again. */
  lemma {:induction false} EscapeIsSimultaneous(s: string)
    ensures EscapeMessage(s) == MapChars(s, MessageChar)
    ensures EscapeProperty(s) == MapChars(s, PropertyChar)
  {
    if s != "" {
      hide EscapeMessage, EscapeProperty;
      assert s == [s[0]] + s[1..];
      EscapeConcat([s[0]], s[1..]);
      EscapeOne(s[0]);
      EscapeIsSimultaneous(s[1..]);
    }
  }

  function Code(digits: string): Option<char> {
    match digits
    case "25" => Some('%')
    case "0D" => Some('\r')
    case "0A" => Some('\n')
    case "3A" => Some(':')
    case "2C" => Some(',')
    case _ => None
  }

  /** The runner's side: each escape back to its character. */
  function Unescape(s: string): string {
    if s == "" then ""
    else if s[0] == '%' && |s| >= 3 && Code(s[1..3]).Some? then [Code(s[1..3]).value] + Unescape(s[3..])
    else [s[0]] + Unescape(s[1..])
  }

  lemma UnescapeStep(c: char, e: string, rest: string)
    requires e == MessageChar(c) || e == PropertyChar(c)
    ensures Unescape(e + rest) == [c] + Unescape(rest)
  {
    if |e| == 1 {
      assert (e + rest)[1..] == rest;
    } else {
      assert |e| == 3 && (e + rest)[3..] == rest && (e + rest)[1..3] == e[1..3];
      assert e[1..3] == [e[1], e[2]];
    }
  }

  lemma {:induction false} UnescapeMapped(s: string)
    ensures Unescape(MapChars(s, MessageChar)) == s && Unescape(MapChars(s, PropertyChar)) == s
  {
    if s != "" {
      UnescapeMapped(s[1..]);
      UnescapeStep(s[0], MessageChar(s[0]), MapChars(s[1..], MessageChar));
      UnescapeStep(s[0], PropertyChar(s[0]), MapChars(s[1..], PropertyChar));
      assert s == [s[0]] + s[1..];
    }
  }

  /** Escaping loses nothing: the reader gets every text back. */
  lemma EscapeRoundTrip(s: string)
    ensures Unescape(EscapeMessage(s)) == s && Unescape(EscapeProperty(s)) == s
  {
    EscapeIsSimultaneous(s);
    UnescapeMapped(s);
  }

  ghost predicate Free(s: string, banned: string) {
    forall c | c in banned :: c !in s
  }

  lemma {:induction false} MappedIsFree(s: string)
    ensures Free(MapChars(s, MessageChar), "\r\n") && Free(MapChars(s, PropertyChar), "\r\n:,")
  {
    if s != "" {
      MappedIsFree(s[1..]);
    }
  }

  lemma EscapedIsFree(s: string)
    ensures Free(EscapeMessage(s), "\r\n") && Free(EscapeProperty(s), "\r\n:,")
  {
    EscapeIsSimultaneous(s);
    MappedIsFree(s);
  }

  // ---------------------------------------------------------------- inputs of the formatter

  function LevelOf(level: string): (r: string)
    ensures r in {"error", "warning", "notice"}
  {
    if Lower(level) in {"error", "warning", "notice"} then Lower(level) else "warning"
  }

  /** `_normalize_path` */
  function NormalizePath(path: string): (r: string)
    ensures '\\' !in r
    ensures var cut := if |path| >= 2 && path[0] == '.' && path[1] in "/\\" then 2 else 0;
      && |r| == |path| - cut
      && forall i | 0 <= i < |r| :: r[i] == if path[cut + i] == '\\' then '/' else path[cut + i]
  {
    var norm := Replace(path, '\\', "/");
    ReplacedIsGone(path, '\\', '/');
    ReplacedAt(path, '\\', '/');
    if "./" <= norm then norm[2..] else norm
  }

  lemma {:induction false} ReplacedIsGone(s: string, c: char, put: char)
    requires c != put
    ensures c !in Replace(s, c, [put])
  {
    if s != "" {
      ReplacedIsGone(s[1..], c, put);
    }
  }

  lemma {:induction false} ReplacedAt(s: string, c: char, put: char)
    ensures |Replace(s, c, [put])| == |s|
    ensures forall i | 0 <= i < |s| :: Replace(s, c, [put])[i] == if s[i] == c then put else s[i]
  {
    if s != "" {
      ReplacedAt(s[1..], c, put);
    }
  }

  function Digits(n: nat): (r: string)
    ensures r != "" && forall c | c in r :: '0' <= c <= '9'
  {
    if n < 10 then ['0' + n as char] else Digits(n / 10) + ['0' + (n % 10) as char]
  }

  function NumberOf(digits: string): int
    decreases |digits|
  {
    if digits == "" then 0
    else NumberOf(digits[..|digits| - 1]) * 10 + (digits[|digits| - 1] as int - '0' as int)
  }

  lemma {:induction false} DigitsRoundTrip(n: nat)
    ensures NumberOf(Digits(n)) == n
  {
    if n < 10 {
      assert Digits(n)[..0] == "";
    } else {
      DigitsRoundTrip(n / 10);
      var last := ['0' + (n % 10) as char];
      assert (Digits(n / 10) + last)[..|Digits(n / 10)|] == Digits(n / 10);
    }
  }

  datatype Annotation = Annotation(
    level: string, message: Option<string>, file: Option<string>, line: Option<int>, col: Option<int>,
    endLine: Option<int>, endCol: Option<int>, title: Option<string>)

  datatype Property = Property(name: string, value: string)

  /** What the reader of a line should find. */
  datatype Command = Command(level: string, properties: seq<Property>, message: string)

  function FileProperty(file: Option<string>): seq<Property> {
    if file.Some? && file.value != "" && NormalizePath(file.value) != "" then
      [Property("file", NormalizePath(file.value))]
    else []
  }

  /** `_extract_int_coord`: only coordinates from 1 on are kept. */
  function Coordinate(name: string, at: Option<int>): seq<Property> {
    if at.Some? && at.value > 0 then [Property(name, Digits(at.value))] else []
  }

  function TitleProperty(title: Option<string>): seq<Property> {
    if title.Some? && title.value != "" then [Property("title", title.value)] else []
  }

  function Meaning(a: Annotation): Command {
    Command(
      LevelOf(a.level),
      FileProperty(a.file) + Coordinate("line", a.line) + Coordinate("col", a.col)
      + Coordinate("endLine", a.endLine) + Coordinate("endColumn", a.endCol) + TitleProperty(a.title),
      if a.message.Some? then a.message.value else "")
  }

  // ---------------------------------------------------------------- lines

  function Rendered(p: Property): string {
    p.name + "=" + EscapeProperty(p.value)
  }

  function RenderedAll(ps: seq<Property>): seq<string> {
    if ps == [] then [] else [Rendered(ps[0])] + RenderedAll(ps[1..])
  }

  function Join(parts: seq<string>): string {
    if parts == [] then ""
    else if |parts| == 1 then parts[0]
    else parts[0] + "," + Join(parts[1..])
  }

  function Header(level: string, parts: seq<string>): string {
    if parts == [] then level else level + " " + Join(parts)
  }

  function Line(level: string, parts: seq<string>, message: string): string {
    "::" + (Header(level, parts) + ("::" + EscapeMessage(message)))
  }

  // ---------------------------------------------------------------- the reader

  /** Cut at the first `::`. */
  function CutAtColons(s: string): Option<(string, string)> {
    if |s| < 2 then None
    else if s[0] == ':' && s[1] == ':' then Some(("", s[2..]))
    else match CutAtColons(s[1..])
         case None => None
         case Some(pair) => Some(([s[0]] + pair.0, pair.1))
  }

  /** Cut at the first occurrence of a character. */
  function CutAt(s: string, c: char): (string, Option<string>) {
    if s == "" then ("", None)
    else if s[0] == c then ("", Some(s[1..]))
    else var (head, tail) := CutAt(s[1..], c); ([s[0]] + head, tail)
  }

  function SplitCommas(s: string): (r: seq<string>)
    decreases |s|
  {
    if s == "" then [""]
    else
      var rest := SplitCommas(s[1..]);
      if s[0] == ',' then [""] + rest
      else if rest == [] then [[s[0]]]
      else [[s[0]] + rest[0]] + rest[1..]
  }

  function ReadProperty(part: string): Property {
    var (name, value) := CutAt(part, '=');
    Property(name, if value.Some? then Unescape(value.value) else "")
  }

  function ReadAll(parts: seq<string>): seq<Property> {
    if parts == [] then [] else [ReadProperty(parts[0])] + ReadAll(parts[1..])
  }

  /** Read a line back: after the leading `::`, the first `::` ends the header; in the header the
      first space ends the level, and commas separate the properties. */
  function Read(line: string): Option<Command> {
    if !("::" <= line) then None
    else match CutAtColons(line[2..])
         case None => None
         case Some((header, message)) =>
           var (level, properties) := CutAt(header, ' ');
           Some(Command(level, if properties.Some? then ReadAll(SplitCommas(properties.value)) else [],
                        Unescape(message)))
  }

  lemma {:induction false} CutAtColonsFinds(header: string, rest: string)
    requires ':' !in header
    ensures CutAtColons(header + ("::" + rest)) == Some((header, rest))
  {
    var s := header + ("::" + rest);
    if header == "" {
      assert s == "::" + rest && s[2..] == rest;
    } else {
      CutAtColonsFinds(header[1..], rest);
      TailOfConcat(header, "::" + rest);
      assert s[1..] == header[1..] + ("::" + rest);
      assert header == [header[0]] + header[1..];
    }
  }

  lemma {:induction false} CutAtFinds(head: string, c: char, tail: string)
    requires c !in head
    ensures CutAt(head + ([c] + tail), c) == (head, Some(tail)) && CutAt(head, c) == (head, None)
  {
    var s := head + ([c] + tail);
    if head == "" {
      assert s == [c] + tail && s[1..] == tail;
    } else {
      CutAtFinds(head[1..], c, tail);
      TailOfConcat(head, [c] + tail);
      assert s[1..] == head[1..] + ([c] + tail);
      assert head == [head[0]] + head[1..];
    }
  }

  lemma {:induction false} SplitNoComma(s: string)
    requires ',' !in s
    ensures SplitCommas(s) == [s]
  {
    if s != "" {
      SplitNoComma(s[1..]);
      assert s == [s[0]] + s[1..];
    }
  }

  lemma {:induction false} SplitOne(part: string, rest: string)
    requires ',' !in part
    ensures SplitCommas(part + ("," + rest)) == [part] + SplitCommas(rest)
  {
    var s := part + ("," + rest);
    if part == "" {
      assert s == "," + rest && s[1..] == rest;
    } else {
      SplitOne(part[1..], rest);
      TailOfConcat(part, "," + rest);
      assert s[1..] == part[1..] + ("," + rest);
      assert part == [part[0]] + part[1..];
    }
  }

  lemma {:induction false} SplitJoin(parts: seq<string>)
    requires parts != [] && forall p | p in parts :: ',' !in p
    ensures SplitCommas(Join(parts)) == parts
  {
    hide SplitCommas;
    if |parts| == 1 {
      SplitNoComma(parts[0]);
    } else {
      SplitJoin(parts[1..]);
      SplitOne(parts[0], Join(parts[1..]));
      Assoc(parts[0], ",", Join(parts[1..]));
      assert parts == [parts[0]] + parts[1..];
    }
  }

  /** The names the formatter uses. */
  ghost predicate PlainName(name: string) {
    Free(name, "\r\n:,=")
  }

  lemma RenderedReads(p: Property)
    requires PlainName(p.name)
    ensures ReadProperty(Rendered(p)) == p && Free(Rendered(p), "\r\n:,")
  {
    hide Unescape, EscapeProperty, CutAt;
    var value := EscapeProperty(p.value);
    Assoc(p.name, "=", value);
    CutAtFinds(p.name, '=', value);
    EscapeRoundTrip(p.value);
    EscapedIsFree(p.value);
  }

  lemma {:induction false} ReadsAll(ps: seq<Property>)
    requires forall p | p in ps :: PlainName(p.name)
    ensures ReadAll(RenderedAll(ps)) == ps && |RenderedAll(ps)| == |ps|
    ensures forall part | part in RenderedAll(ps) :: Free(part, "\r\n:,")
  {
    hide PlainName, Rendered, ReadProperty, Free;
    if ps != [] {
      RenderedReads(ps[0]);
      ReadsAll(ps[1..]);
      assert ps == [ps[0]] + ps[1..];
    }
  }

  lemma {:induction false} JoinIsFree(parts: seq<string>)
    requires forall p | p in parts :: Free(p, "\r\n:,")
    ensures Free(Join(parts), "\r\n:")
  {
    if |parts| > 1 {
      JoinIsFree(parts[1..]);
      assert Free(parts[0], "\r\n:,");
      assert ',' !in "\r\n:";
      forall c | c in "\r\n:"
        ensures c !in Join(parts)
      {
        assert c in "\r\n:,";
      }
    } else if |parts| == 1 {
      assert Free(parts[0], "\r\n:,");
      assert forall c | c in "\r\n:" :: c in "\r\n:,";
    }
  }

  lemma HeaderReads(level: string, parts: seq<string>)
    requires Free(level, "\r\n: ") && forall p | p in parts :: Free(p, "\r\n:,")
    ensures CutAt(Header(level, parts), ' ') == (level, if parts == [] then None else Some(Join(parts)))
    ensures parts != [] ==> SplitCommas(Join(parts)) == parts
    ensures Free(Header(level, parts), "\r\n:")
  {
    hide CutAt, Join, SplitCommas;
    JoinIsFree(parts);
    CutAtFinds(level, ' ', Join(parts));
    Assoc(level, " ", Join(parts));
    if parts != [] {
      assert forall p | p in parts :: ',' !in p;
      SplitJoin(parts);
    }
  }

  /** Marked and followed by an escaped message, a free header is found again. */
  lemma LineCuts(level: string, parts: seq<string>, message: string)
    requires Free(Header(level, parts), "\r\n:")
    ensures var line := Line(level, parts, message);
      && "::" <= line && CutAtColons(line[2..]) == Some((Header(level, parts), EscapeMessage(message)))
      && Free(line, "\r\n")
  {
    hide Header, CutAtColons, EscapeMessage;
    var header, rest := Header(level, parts), EscapeMessage(message);
    EscapedIsFree(message);
    CutAtColonsFinds(header, rest);
    assert Line(level, parts, message)[2..] == header + ("::" + rest);
    assert '\r' !in header && '\n' !in header;
  }

  /** The line is unambiguous: reading it back gives the level, the properties and the message. And it
      is one line. */
  lemma LineReadsBack(level: string, ps: seq<Property>, message: string)
    requires level in {"error", "warning", "notice"} && AllPlain(ps)
    ensures Read(Line(level, RenderedAll(ps), message)) == Some(Command(level, ps, message))
    ensures Free(Line(level, RenderedAll(ps), message), "\r\n")
  {
    hide CutAtColons, CutAt, Unescape, EscapeMessage, Join, SplitCommas, ReadAll, RenderedAll, PlainName, Header,
         Line, Free;
    var parts := RenderedAll(ps);
    assert forall p | p in ps :: PlainName(p.name);
    ReadsAll(ps);
    LevelIsPlain(level);
    HeaderReads(level, parts);
    LineCuts(level, parts, message);
    EscapeRoundTrip(message);
    NothingToRead();
  }

  lemma NothingToRead()
    ensures ReadAll([]) == []
  {
  }

  lemma LevelIsPlain(level: string)
    requires level in {"error", "warning", "notice"}
    ensures Free(level, "\r\n: ")
  {
  }

  ghost predicate AllPlain(ps: seq<Property>) {
    forall p | p in ps :: PlainName(p.name)
  }

  lemma AllPlainConcat(a: seq<Property>, b: seq<Property>)
    requires AllPlain(a) && AllPlain(b)
    ensures AllPlain(a + b)
  {
    hide PlainName;
  }

  lemma NamesArePlain()
    ensures PlainName("file") && PlainName("line") && PlainName("col")
    ensures PlainName("endLine") && PlainName("endColumn") && PlainName("title")
  {
  }

  lemma MeaningIsPlain(a: Annotation)
    ensures AllPlain(Meaning(a).properties)
  {
    hide PlainName, AllPlain, NormalizePath, Digits;
    PiecesArePlain(a);
    var ps := FileProperty(a.file) + Coordinate("line", a.line);
    AllPlainConcat(FileProperty(a.file), Coordinate("line", a.line));
    AllPlainConcat(ps, Coordinate("col", a.col));
    AllPlainConcat(ps + Coordinate("col", a.col), Coordinate("endLine", a.endLine));
    ps := ps + Coordinate("col", a.col) + Coordinate("endLine", a.endLine);
    AllPlainConcat(ps, Coordinate("endColumn", a.endCol));
    AllPlainConcat(ps + Coordinate("endColumn", a.endCol), TitleProperty(a.title));
  }

  lemma PiecesArePlain(a: Annotation)
    ensures AllPlain(FileProperty(a.file)) && AllPlain(TitleProperty(a.title))
    ensures AllPlain(Coordinate("line", a.line)) && AllPlain(Coordinate("col", a.col))
    ensures AllPlain(Coordinate("endLine", a.endLine)) && AllPlain(Coordinate("endColumn", a.endCol))
  {
    hide PlainName, NormalizePath, Digits;
    NamesArePlain();
  }

  // ---------------------------------------------------------------- the formatter

  lemma {:induction false} RenderedConcat(a: seq<Property>, b: seq<Property>)
    ensures RenderedAll(a + b) == RenderedAll(a) + RenderedAll(b)
  {
    if a == [] {
      assert a + b == b;
    } else {
      TailOfConcat(a, b);
      RenderedConcat(a[1..], b);
      Assoc([Rendered(a[0])], RenderedAll(a[1..]), RenderedAll(b));
    }
  }

  /** Digits carry nothing to escape. */
  lemma DigitsStay(n: nat)
    ensures EscapeProperty(Digits(n)) == Digits(n)
  {
    hide Replace, Digits;
    var d := Digits(n);
    ReplaceNothing(d, '%', "%25");
    ReplaceNothing(d, '\r', "%0D");
    ReplaceNothing(d, '\n', "%0A");
    ReplaceNothing(d, ':', "%3A");
    ReplaceNothing(d, ',', "%2C");
  }

  method AddCoordinate(props: seq<string>, name: string, at: Option<int>) returns (r: seq<string>)
    ensures r == props + RenderedAll(Coordinate(name, at))
  {
    hide EscapeProperty, Digits;
    r := props;
    if at.Some? && at.value > 0 {
      DigitsStay(at.value);
      r := r + [name + "=" + Digits(at.value)];
    }
  }

  lemma RenderedPieces(f: seq<Property>, l: seq<Property>, c: seq<Property>, el: seq<Property>, ec: seq<Property>,
                       t: seq<Property>)
    ensures RenderedAll(f + l + c + el + ec + t)
            == RenderedAll(f) + RenderedAll(l) + RenderedAll(c) + RenderedAll(el) + RenderedAll(ec) + RenderedAll(t)
  {
    hide RenderedAll;
    RenderedConcat(f + l + c + el + ec, t);
    RenderedConcat(f + l + c + el, ec);
    RenderedConcat(f + l + c, el);
    RenderedConcat(f + l, c);
    RenderedConcat(f, l);
  }

  /** `format_github_annotation` */
  method FormatGithubAnnotation(a: Annotation) returns (line: string)
    ensures Read(line) == Some(Meaning(a))
    ensures '\r' !in line && '\n' !in line
  {
    hide *;
    var level := LevelOf(a.level);
    var props := AddFile([], a.file);
    props := AddCoordinate(props, "line", a.line);
    props := AddCoordinate(props, "col", a.col);
    props := AddCoordinate(props, "endLine", a.endLine);
    props := AddCoordinate(props, "endColumn", a.endCol);
    props := AddTitle(props, a.title);
    var propStr := if props != [] then " " + Join(props) else "";
    var message := if a.message.Some? then a.message.value else "";
    line := "::" + level + propStr + "::" + EscapeMessage(message);
    LineParts(level, props, message);
    MeaningParts(a);
    LineReadsBack(level, Meaning(a).properties, message);
    FreeOfBreaks(line);
  }

  lemma FreeOfBreaks(s: string)
    requires Free(s, "\r\n")
    ensures '\r' !in s && '\n' !in s
  {
    assert '\r' in "\r\n" && '\n' in "\r\n";
  }

  lemma MeaningParts(a: Annotation)
    ensures RenderedAll(Meaning(a).properties)
            == [] + RenderedAll(FileProperty(a.file)) + RenderedAll(Coordinate("line", a.line))
               + RenderedAll(Coordinate("col", a.col)) + RenderedAll(Coordinate("endLine", a.endLine))
               + RenderedAll(Coordinate("endColumn", a.endCol)) + RenderedAll(TitleProperty(a.title))
    ensures AllPlain(Meaning(a).properties)
    ensures Meaning(a)
         == Command(LevelOf(a.level), Meaning(a).properties, if a.message.Some? then a.message.value else "")
  {
    hide RenderedAll, FileProperty, Coordinate, TitleProperty, AllPlain, LevelOf;
    MeaningIsPlain(a);
    RenderedPieces(FileProperty(a.file), Coordinate("line", a.line), Coordinate("col", a.col),
                   Coordinate("endLine", a.endLine), Coordinate("endColumn", a.endCol), TitleProperty(a.title));
    assert [] + RenderedAll(FileProperty(a.file)) == RenderedAll(FileProperty(a.file));
  }

  method AddFile(props: seq<string>, file: Option<string>) returns (r: seq<string>)
    ensures r == props + RenderedAll(FileProperty(file))
  {
    hide EscapeProperty, NormalizePath;
    assert "file" + "=" == "file=";
    r := props;
    if file.Some? && file.value != "" {
      var norm := NormalizePath(file.value);
      if norm != "" {
        r := r + ["file=" + EscapeProperty(norm)];
      }
    }
  }

  method AddTitle(props: seq<string>, title: Option<string>) returns (r: seq<string>)
    ensures r == props + RenderedAll(TitleProperty(title))
  {
    hide EscapeProperty;
    assert "title" + "=" == "title=";
    r := props;
    if title.Some? && title.value != "" {
      r := r + ["title=" + EscapeProperty(title.value)];
    }
  }

  lemma LineParts(level: string, props: seq<string>, message: string)
    ensures "::" + level + (if props != [] then " " + Join(props) else "") + "::" + EscapeMessage(message)
            == Line(level, props, message)
  {
    hide Join, EscapeMessage;
    var tail := "::" + EscapeMessage(message);
    if props != [] {
      Assoc(level, " ", Join(props));
    } else {
      assert level + "" == level;
    }
    assert "::" + level + (if props != [] then " " + Join(props) else "") == "::" + Header(level, props);
    Assoc("::", Header(level, props), tail);
    Assoc("::" + Header(level, props), "::", EscapeMessage(message));
  }
}
