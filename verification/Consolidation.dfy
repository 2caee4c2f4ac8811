/** Collapsing the findings of one defect: each family of CWEs gives one alert per file and line. */
module Consolidation {
  import opened Options
  import opened Sequences
  import opened Text

  /** `others` holds the fields the consolidation only copies. */
  datatype Finding = Finding(
    file: string, line: int, cwe: string, severity: string, confidence: Option<string>, message: string,
    others: map<string, string>)

  datatype Site = Site(file: string, line: int, cwe: string)

  /** An emitted alert; `absorbed` is `consolidated_from`, a list of cwe and line. */
  datatype Alert = Alert(finding: Finding, absorbed: seq<(string, int)>)

  datatype Key = Key(family: string, file: string, line: int)

  function SiteOf(f: Finding): Site {
    Site(f.file, f.line, f.cwe)
  }

  function AlertSite(a: Alert): Site {
    SiteOf(a.finding)
  }

  function FamilyPriority(family: string): seq<string> {
    match family
    case "CRYPTO_HASH" => ["CWE-327", "CWE-916", "CWE-759", "CWE-328"]
    case "INSECURE_COOKIE" => ["CWE-614", "CWE-1004", "CWE-1275"]
    case "RESOURCE_EXHAUSTION" => ["CWE-770", "CWE-400"]
    case _ => []
  }

  function FamilyOf(cwe: string): Option<string> {
    if cwe in FamilyPriority("CRYPTO_HASH") then Some("CRYPTO_HASH")
    else if cwe in FamilyPriority("INSECURE_COOKIE") then Some("INSECURE_COOKIE")
    else if cwe in FamilyPriority("RESOURCE_EXHAUSTION") then Some("RESOURCE_EXHAUSTION")
    else None
  }

  function KeyOf(f: Finding): Option<Key> {
    match FamilyOf(f.cwe)
    case None => None
    case Some(family) => Some(Key(family, f.file, f.line))
  }

  function SeverityRank(severity: string): nat {
    match severity
    case "LOW" => 1
    case "MEDIUM" => 2
    case "HIGH" => 3
    case "CRITICAL" => 4
    case _ => 0
  }

  function ConfidenceRank(confidence: string): nat {
    match confidence
    case "LOW" => 1
    case "MEDIUM" => 2
    case "HIGH" => 3
    case _ => 0
  }

  function SeverityOf(f: Finding): string {
    f.severity
  }

  function ConfidenceOf(f: Finding): string {
    if f.confidence.Some? then f.confidence.value else "MEDIUM"
  }

  // ---------------------------------------------------------------- the text of an alert

  function CookieFlag(cwe: string): string {
    match cwe
    case "CWE-614" => "Secure"
    case "CWE-1004" => "HttpOnly"
    case "CWE-1275" => "SameSite"
    case _ => ""
  }

  function JoinWith(parts: seq<string>, between: string): string {
    if parts == [] then "" else if |parts| == 1 then parts[0] else parts[0] + between + JoinWith(parts[1..], between)
  }

  function FlagsOf(cwes: seq<string>): seq<string> {
    if cwes == [] then [] else [CookieFlag(cwes[0])] + FlagsOf(cwes[1..])
  }

  /** What follows the first colon, if there is one. */
  function AfterColon(s: string): Option<string> {
    if s == "" then None else if s[0] == ':' then Some(s[1..]) else AfterColon(s[1..])
  }

  function OtherThan(cwes: seq<string>, primary: string): seq<string> {
    if cwes == [] then []
    else if cwes[0] == primary then OtherThan(cwes[1..], primary)
    else [cwes[0]] + OtherThan(cwes[1..], primary)
  }

  /** `_family_message`, from the CWEs of the group in the family's order and the representative's text. */
  function FamilyMessage(family: string, primary: string, present: seq<string>, source: string): string {
    if family == "INSECURE_COOKIE" then
      primary + ": Insecure Cookie Configuration (Missing " + JoinWith(FlagsOf(present), ", ") + ")"
    else
      var operation := if AfterColon(source).Some? then Trim(AfterColon(source).value) else source;
      var secondaries := OtherThan(present, primary);
      primary + ": " + operation
      + if secondaries != [] then " (consolidated: " + JoinWith(secondaries, ", ") + ")" else ""
  }

  /** Read a list whose elements a comma and a space separate. */
  function ReadList(s: string): (r: seq<string>)
    ensures |r| >= 1
    decreases |s|
  {
    if s == "" then [""]
    else if ", " <= s then [""] + ReadList(s[2..])
    else var rest := ReadList(s[1..]); [[s[0]] + rest[0]] + rest[1..]
  }

  lemma ReadStep(s: string)
    requires s != "" && s[0] != ','
    ensures var rest := ReadList(s[1..]); ReadList(s) == [[s[0]] + rest[0]] + rest[1..]
  {
  }

  lemma {:induction false} ReadsOne(part: string, rest: string)
    requires ',' !in part
    ensures ReadList(part + (", " + rest)) == [part] + ReadList(rest) && ReadList(part) == [part]
  {
    var s := part + (", " + rest);
    if part == "" {
      assert s == ", " + rest && s[2..] == rest;
    } else {
      ReadsOne(part[1..], rest);
      TailOfConcat(part, ", " + rest);
      ReadStep(part);
      ReadStep(s);
      hide ReadList;
      SplitFirst(part);
    }
  }

  lemma {:induction false} ReadsJoined(parts: seq<string>)
    requires parts != [] && forall part | part in parts :: ',' !in part
    ensures ReadList(JoinWith(parts, ", ")) == parts
  {
    hide ReadList;
    if |parts| == 1 {
      ReadsOne(parts[0], "");
    } else {
      ReadsJoined(parts[1..]);
      ReadsOne(parts[0], JoinWith(parts[1..], ", "));
      Assoc(parts[0], ", ", JoinWith(parts[1..], ", "));
      assert parts == [parts[0]] + parts[1..];
    }
  }

  lemma {:induction false} FlagsAre(cwes: seq<string>)
    ensures |FlagsOf(cwes)| == |cwes| && forall i | 0 <= i < |cwes| :: FlagsOf(cwes)[i] == CookieFlag(cwes[i])
  {
    hide CookieFlag;
    if cwes != [] { FlagsAre(cwes[1..]); }
  }

  lemma {:induction false} OthersAre(cwes: seq<string>, primary: string)
    requires primary !in cwes
    ensures OtherThan(cwes, primary) == cwes
  {
    if cwes != [] {
      OthersAre(cwes[1..], primary);
      assert cwes == [cwes[0]] + cwes[1..];
    }
  }

  lemma {:induction false} OthersAround(cwes: seq<string>, j: nat)
    requires j < |cwes| && cwes[j] !in cwes[..j] && cwes[j] !in cwes[j + 1..]
    ensures OtherThan(cwes, cwes[j]) == cwes[..j] + cwes[j + 1..]
  {
    if j == 0 {
      OthersAre(cwes[1..], cwes[0]);
    } else {
      assert cwes[1..][..j - 1] == cwes[..j][1..] && cwes[1..][j..] == cwes[j + 1..];
      assert cwes[0] == cwes[..j][0];
      OthersAround(cwes[1..], j - 1);
      assert cwes[..j] == [cwes[0]] + cwes[1..][..j - 1];
    }
  }

  lemma {:induction false} AfterColonIs(s: string, i: nat)
    requires i <= |s| && ':' !in s[..i]
    ensures AfterColon(s) == if i == |s| then None else if s[i] == ':' then Some(s[i + 1..]) else AfterColon(s)
  {
    if i > 0 {
      assert s[0] == s[..i][0] && s[1..][..i - 1] == s[..i][1..];
      AfterColonIs(s[1..], i - 1);
    }
  }

  /** What an alert's text tells.  For a cookie: the flags of the CWEs present, in their order.  Otherwise: what
      follows the first colon of the representative's text, trimmed, or else all of it; and, if there are CWEs
      beside the primary one, these in their order. */
  lemma MessageTells(family: string, present: seq<string>, j: nat, source: string, colon: nat)
    requires j < |present| && present[j] !in present[..j] && present[j] !in present[j + 1..]
    requires forall cwe | cwe in present :: ',' !in cwe
    requires colon <= |source| && ':' !in source[..colon] && (colon < |source| ==> source[colon] == ':')
    ensures family == "INSECURE_COOKIE" ==>
              exists text: string ::
                && FamilyMessage(family, present[j], present, source)
                   == present[j] + ": Insecure Cookie Configuration (Missing " + text + ")"
                && |ReadList(text)| == |present|
                && forall i | 0 <= i < |present| :: ReadList(text)[i] == CookieFlag(present[i])
    ensures family != "INSECURE_COOKIE" ==>
              var operation := if colon < |source| then Trim(source[colon + 1..]) else source;
              if |present| == 1 then FamilyMessage(family, present[j], present, source) == present[j] + ": " + operation
              else exists text: string ::
                     && FamilyMessage(family, present[j], present, source)
                        == present[j] + ": " + operation + " (consolidated: " + text + ")"
                     && ReadList(text) == present[..j] + present[j + 1..]
  {
    hide ReadList, JoinWith, CookieFlag, Trim, AfterColon, OtherThan, FlagsOf;
    if family == "INSECURE_COOKIE" {
      FlagsAre(present);
      FlagsHaveNoComma(present);
      ReadsJoined(FlagsOf(present));
    } else {
      AfterColonIs(source, colon);
      OthersAround(present, j);
      var others := present[..j] + present[j + 1..];
      if others == [] {
        EmptySuffix(present[j] + ": " + (if colon < |source| then Trim(source[colon + 1..]) else source));
      } else {
        ReadsJoined(others);
        var head := present[j] + ": " + if colon < |source| then Trim(source[colon + 1..]) else source;
        SuffixInOrder(head, JoinWith(others, ", "));
      }
    }
  }

  lemma EmptySuffix(s: string)
    ensures s + "" == s
  {
  }

  lemma SuffixInOrder(head: string, text: string)
    ensures head + (" (consolidated: " + text + ")") == head + " (consolidated: " + text + ")"
  {
  }

  lemma FlagsHaveNoComma(cwes: seq<string>)
    ensures forall flag | flag in FlagsOf(cwes) :: ',' !in flag
  {
    FlagsAre(cwes);
  }

  // ---------------------------------------------------------------- the order of the report

  predicate SiteAtMost(a: Site, b: Site) {
    if a.file != b.file then Lex(a.file, b.file) else if a.line != b.line then a.line < b.line else Lex(a.cwe, b.cwe)
  }

  lemma SiteAtMostTotal(a: Site, b: Site)
    ensures SiteAtMost(a, b) || SiteAtMost(b, a)
  {
    LexTotal(a.file, b.file);
    LexTotal(a.cwe, b.cwe);
  }

  lemma SiteAtMostTransitive(a: Site, b: Site, c: Site)
    requires SiteAtMost(a, b) && SiteAtMost(b, c)
    ensures SiteAtMost(a, c)
  {
    LexTotal(a.file, b.file);
    LexTotal(b.file, c.file);
    if a.file != b.file && b.file != c.file {
      LexTransitive(a.file, b.file, c.file);
    }
    if a.file == b.file == c.file && a.line == b.line == c.line {
      LexTransitive(a.cwe, b.cwe, c.cwe);
    }
  }

  function Insert(a: Alert, sorted: seq<Alert>): (r: seq<Alert>)
    ensures multiset(r) == multiset(sorted) + multiset{a}
  {
    if sorted == [] || SiteAtMost(AlertSite(a), AlertSite(sorted[0])) then [a] + sorted
    else
      assert sorted == [sorted[0]] + sorted[1..];
      [sorted[0]] + Insert(a, sorted[1..])
  }

  /** `sorted(alerts, key=lambda item: (item["file"], item["line"], item["cwe"]))`, which is stable */
  function Sort(alerts: seq<Alert>): (r: seq<Alert>)
    ensures multiset(r) == multiset(alerts)
  {
    if alerts == [] then []
    else
      assert alerts == [alerts[0]] + alerts[1..];
      Insert(alerts[0], Sort(alerts[1..]))
  }

  ghost predicate Sorted(alerts: seq<Alert>) {
    forall i, j | 0 <= i < j < |alerts| :: SiteAtMost(AlertSite(alerts[i]), AlertSite(alerts[j]))
  }

  lemma {:induction false} InsertSorted(a: Alert, sorted: seq<Alert>)
    requires Sorted(sorted)
    ensures Sorted(Insert(a, sorted))
  {
    hide SiteAtMost, AlertSite;
    if sorted != [] {
      if SiteAtMost(AlertSite(a), AlertSite(sorted[0])) {
        forall j | 0 < j < |sorted|
          ensures SiteAtMost(AlertSite(a), AlertSite(sorted[j]))
        {
          SiteAtMostTransitive(AlertSite(a), AlertSite(sorted[0]), AlertSite(sorted[j]));
        }
      } else {
        SiteAtMostTotal(AlertSite(a), AlertSite(sorted[0]));
        var rest := Insert(a, sorted[1..]);
        InsertSorted(a, sorted[1..]);
        forall j | 0 <= j < |rest|
          ensures SiteAtMost(AlertSite(sorted[0]), AlertSite(rest[j]))
        {
          assert rest[j] in multiset(rest);
          assert rest[j] == a || rest[j] in sorted[1..];
        }
      }
    }
  }

  lemma {:induction false} SortSorts(alerts: seq<Alert>)
    ensures Sorted(Sort(alerts))
  {
    if alerts != [] {
      SortSorts(alerts[1..]);
      InsertSorted(alerts[0], Sort(alerts[1..]));
    }
  }

  lemma {:induction false} SortedStays(alerts: seq<Alert>)
    requires Sorted(alerts)
    ensures Sort(alerts) == alerts
  {
    hide SiteAtMost, AlertSite;
    if alerts != [] {
      SortedStays(alerts[1..]);
      SplitFirst(alerts);
    }
  }

  // ---------------------------------------------------------------- one group

  function OfCwe(group: seq<Finding>, cwe: string): (r: seq<Finding>)
    ensures forall f | f in r :: f.cwe == cwe && f in group
  {
    if group == [] then []
    else if group[0].cwe == cwe then [group[0]] + OfCwe(group[1..], cwe)
    else OfCwe(group[1..], cwe)
  }

  function NotOfCwe(group: seq<Finding>, cwe: string): (r: seq<Finding>)
    ensures forall f | f in r :: f.cwe != cwe && f in group
  {
    if group == [] then []
    else if group[0].cwe != cwe then [group[0]] + NotOfCwe(group[1..], cwe)
    else NotOfCwe(group[1..], cwe)
  }

  /** The members by priority of their CWE, in order within one CWE. */
  function ByPriority(priority: seq<string>, group: seq<Finding>): seq<Finding> {
    if priority == [] then [] else OfCwe(group, priority[0]) + ByPriority(priority[1..], group)
  }

  /** The family's CWEs that the group has, in the family's order. */
  function Present(priority: seq<string>, group: seq<Finding>): seq<string> {
    if priority == [] then []
    else (if OfCwe(group, priority[0]) != [] then [priority[0]] else []) + Present(priority[1..], group)
  }

  /** The value is that of finding `i`, and every finding before has a lower one. */
  ghost predicate IsFirstBest(group: seq<Finding>, value: Finding -> string, rank: string -> nat, best: string,
                              i: nat) {
    i < |group| && best == value(group[i]) && forall j | 0 <= j < i :: rank(value(group[j])) < rank(best)
  }

  lemma FirstBestOfFront(front: seq<Finding>, last: Finding, value: Finding -> string, rank: string -> nat,
                         best: string)
    requires exists i: nat :: IsFirstBest(front, value, rank, best, i)
    ensures exists i: nat :: IsFirstBest(front + [last], value, rank, best, i)
  {
    var i: nat :| IsFirstBest(front, value, rank, best, i);
    assert IsFirstBest(front + [last], value, rank, best, i);
  }

  function BestBy(group: seq<Finding>, value: Finding -> string, rank: string -> nat): (best: string)
    requires group != []
    ensures forall f | f in group :: rank(value(f)) <= rank(best)
    ensures exists i: nat :: IsFirstBest(group, value, rank, best, i)
    decreases |group|
  {
    var last := group[|group| - 1];
    if |group| == 1 then
      assert IsFirstBest(group, value, rank, value(last), 0);
      value(last)
    else
      var front := group[..|group| - 1];
      assert group == front + [last];
      var best := BestBy(front, value, rank);
      if rank(value(last)) > rank(best) then
        assert forall j | 0 <= j < |front| :: group[j] in front;
        assert IsFirstBest(group, value, rank, value(last), |front|);
        value(last)
      else
        FirstBestOfFront(front, last, value, rank, best);
        best
  }

  function FirstLine(group: seq<Finding>): (least: int)
    requires group != []
    ensures forall f | f in group :: least <= f.line
    ensures exists f :: f in group && f.line == least
    decreases |group|
  {
    var last := group[|group| - 1];
    if |group| == 1 then
      assert last in group;
      last.line
    else
      var front := group[..|group| - 1];
      assert group == front + [last];
      var least := FirstLine(front);
      if last.line < least then
        assert last in group;
        last.line
      else
        least
  }

  function Absorb(members: seq<Finding>): (r: seq<(string, int)>)
    ensures |r| == |members|
  {
    if members == [] then [] else [(members[0].cwe, members[0].line)] + Absorb(members[1..])
  }

  ghost predicate IsGroup(family: string, group: seq<Finding>) {
    group != [] && forall f | f in group :: FamilyOf(f.cwe) == Some(family)
  }

  function Sites(fs: seq<Finding>): seq<Site> {
    if fs == [] then [] else [SiteOf(fs[0])] + Sites(fs[1..])
  }

  lemma SitesCons(f: Finding, rest: seq<Finding>)
    ensures multiset(Sites([f] + rest)) == multiset{SiteOf(f)} + multiset(Sites(rest))
    ensures Sites([f] + rest) == [SiteOf(f)] + Sites(rest)
  {
    assert ([f] + rest)[1..] == rest;
  }

  lemma {:induction false} SitesConcat(a: seq<Finding>, b: seq<Finding>)
    ensures Sites(a + b) == Sites(a) + Sites(b)
  {
    hide SiteOf;
    if a == [] {
      assert a + b == b;
    } else {
      assert (a + b)[1..] == a[1..] + b;
      SitesConcat(a[1..], b);
    }
  }

  lemma {:induction false} OfCweSplits(group: seq<Finding>, cwe: string)
    ensures multiset(OfCwe(group, cwe)) + multiset(NotOfCwe(group, cwe)) == multiset(group)
  {
    if group != [] {
      OfCweSplits(group[1..], cwe);
      SplitFirst(group);
    }
  }

  lemma {:induction false} OfCweSplitsSites(group: seq<Finding>, cwe: string)
    ensures multiset(Sites(OfCwe(group, cwe))) + multiset(Sites(NotOfCwe(group, cwe))) == multiset(Sites(group))
  {
    hide SiteOf, Sites;
    if group == [] {
      NoSites();
    } else {
      OfCweSplitsSites(group[1..], cwe);
      SplitFirst(group);
      SitesCons(group[0], group[1..]);
      SitesCons(group[0], OfCwe(group[1..], cwe));
      SitesCons(group[0], NotOfCwe(group[1..], cwe));
    }
  }

  lemma NoSites()
    ensures Sites([]) == []
  {
  }

  lemma {:induction false} OfCweOfRest(group: seq<Finding>, cwe: string, other: string)
    requires cwe != other
    ensures OfCwe(NotOfCwe(group, other), cwe) == OfCwe(group, cwe)
  {
    if group != [] {
      OfCweOfRest(group[1..], cwe, other);
    }
  }

  lemma {:induction false} ByPriorityOfRest(priority: seq<string>, group: seq<Finding>, other: string)
    requires other !in priority
    ensures ByPriority(priority, NotOfCwe(group, other)) == ByPriority(priority, group)
  {
    if priority != [] {
      OfCweOfRest(group, priority[0], other);
      ByPriorityOfRest(priority[1..], group, other);
    }
  }

  /** Ordering by priority loses and invents nothing. */
  lemma {:induction false} ByPriorityPermutes(priority: seq<string>, group: seq<Finding>)
    requires forall i, j | 0 <= i < j < |priority| :: priority[i] != priority[j]
    requires forall f | f in group :: f.cwe in priority
    ensures multiset(ByPriority(priority, group)) == multiset(group)
    ensures multiset(Sites(ByPriority(priority, group))) == multiset(Sites(group))
  {
    hide SiteOf, Sites;
    assert group != [] ==> group[0] in group;
    if priority != [] {
      var rest := NotOfCwe(group, priority[0]);
      OfCweSplits(group, priority[0]);
      OfCweSplitsSites(group, priority[0]);
      ByPriorityOfRest(priority[1..], group, priority[0]);
      ByPriorityPermutes(priority[1..], rest);
      SitesConcat(OfCwe(group, priority[0]), ByPriority(priority[1..], group));
    }
  }

  lemma GroupPermutes(family: string, group: seq<Finding>)
    requires IsGroup(family, group)
    ensures multiset(ByPriority(FamilyPriority(family), group)) == multiset(group)
    ensures multiset(Sites(ByPriority(FamilyPriority(family), group))) == multiset(Sites(group))
    ensures ByPriority(FamilyPriority(family), group) != []
  {
    hide ByPriority, Sites;
    FamilyMembers(family);
    forall f | f in group
      ensures f.cwe in FamilyPriority(family)
    {
      FamilyCwes(f.cwe);
    }
    ByPriorityPermutes(FamilyPriority(family), group);
    assert group[0] in multiset(ByPriority(FamilyPriority(family), group));
  }

  lemma FamilyMembers(family: string)
    ensures var p := FamilyPriority(family); forall i, j | 0 <= i < j < |p| :: p[i] != p[j]
  {
  }

  lemma FamilyCwes(cwe: string)
    ensures FamilyOf(cwe).Some? ==> cwe in FamilyPriority(FamilyOf(cwe).value)
  {
  }

  /** The alert a group collapses to. */
  function Merge(family: string, group: seq<Finding>): Alert
    requires IsGroup(family, group)
  {
    GroupPermutes(family, group);
    var members := ByPriority(FamilyPriority(family), group);
    var present := Present(FamilyPriority(family), group);
    Alert(
      members[0].(line := FirstLine(group), severity := BestBy(group, SeverityOf, SeverityRank),
                  confidence := Some(BestBy(group, ConfidenceOf, ConfidenceRank)),
                  message := FamilyMessage(family, members[0].cwe, present, members[0].message)),
      Absorb(members[1..]))
  }

  /** The text names exactly the CWEs of the group, each once: the list it is made from has a CWE of the
      family if and only if some member has it. */
  lemma {:induction false} PresentMeans(priority: seq<string>, group: seq<Finding>, cwe: string)
    ensures cwe in Present(priority, group) <==> cwe in priority && exists f :: f in group && f.cwe == cwe
    ensures multiset(Present(priority, group))[cwe] <= multiset(priority)[cwe]
  {
    hide OfCwe;
    if priority != [] {
      PresentMeans(priority[1..], group, cwe);
      assert priority == [priority[0]] + priority[1..];
      if OfCwe(group, priority[0]) != [] {
        assert OfCwe(group, priority[0])[0] in OfCwe(group, priority[0]);
      }
      if f :| f in group && f.cwe == priority[0] {
        OfCweHas(group, f);
      }
    }
  }

  lemma MembersAreTheGroup(family: string, group: seq<Finding>)
    requires IsGroup(family, group)
    ensures var members := ByPriority(FamilyPriority(family), group);
      members != [] && |members| == |group| && forall f | f in members :: f in group
  {
    hide ByPriority, FamilyPriority, Sites, IsGroup;
    GroupPermutes(family, group);
    var members := ByPriority(FamilyPriority(family), group);
    assert |members| == |multiset(members)|;
    assert forall f | f in members :: f in multiset(members) && f in multiset(group);
  }

  /** A group's alert sits at the key's file and line under a CWE of the family, and together with what
      it absorbed it accounts for every member once. */
  lemma MergeAccounts(k: Key, group: seq<Finding>)
    requires group != [] && forall f | f in group :: KeyOf(f) == Some(k)
    ensures IsGroup(k.family, group)
    ensures var a := Merge(k.family, group);
      && KeyOf(a.finding) == Some(k)
      && |a.absorbed| == |group| - 1
      && multiset(Trace(a)) == multiset(Sites(group))
  {
    hide ByPriority, SeverityRank, ConfidenceRank, FamilyOf, FamilyPriority, BestBy, FirstLine, Sites, Absorb,
         AbsorbedSites, FamilyMessage, Present;
    assert IsGroup(k.family, group) by { assert forall f | f in group :: KeyOf(f) == Some(k); }
    MembersAreTheGroup(k.family, group);
    GroupPermutes(k.family, group);
    var members := ByPriority(FamilyPriority(k.family), group);
    var a := Merge(k.family, group);
    assert KeyOf(members[0]) == Some(k) && a.finding.line == members[0].line;
    AbsorbIsTrace(k.file, members[1..]);
    SplitFirst(members);
    SitesCons(members[0], members[1..]);
    assert Trace(a) == Sites(members);
  }

  lemma {:induction false} OfCweHas(group: seq<Finding>, f: Finding)
    requires f in group
    ensures f in OfCwe(group, f.cwe)
  {
    if group[0] != f {
      OfCweHas(group[1..], f);
    }
  }

  lemma {:induction false} FirstByPriority(priority: seq<string>, group: seq<Finding>) returns (i: nat)
    requires ByPriority(priority, group) != []
    ensures i < |priority| && OfCwe(group, priority[i]) != []
    ensures ByPriority(priority, group)[0] == OfCwe(group, priority[i])[0]
    ensures forall j | 0 <= j < i :: OfCwe(group, priority[j]) == []
  {
    hide OfCwe;
    if OfCwe(group, priority[0]) != [] {
      i := 0;
    } else {
      var later := FirstByPriority(priority[1..], group);
      i := later + 1;
      forall j | 0 <= j < i
        ensures OfCwe(group, priority[j]) == []
      {
        if j > 0 {
          assert priority[1..][j - 1] == priority[j];
        }
      }
    }
  }

  /** The alert reports the family's most specific CWE that the group has: no member has one that comes
      earlier in the family's priority. */
  lemma MergePicksPrimary(family: string, group: seq<Finding>) returns (i: nat)
    requires IsGroup(family, group)
    ensures i < |FamilyPriority(family)| && Merge(family, group).finding.cwe == FamilyPriority(family)[i]
    ensures exists f :: f in group && f.cwe == FamilyPriority(family)[i]
    ensures forall f | f in group :: f.cwe !in FamilyPriority(family)[..i]
  {
    hide FamilyPriority, ByPriority, BestBy, FirstLine, OfCwe, FamilyMessage, Present;
    GroupPermutes(family, group);
    var priority := FamilyPriority(family);
    i := FirstByPriority(priority, group);
    assert OfCwe(group, priority[i])[0] in OfCwe(group, priority[i]);
    forall f | f in group
      ensures f.cwe !in priority[..i]
    {
      OfCweHas(group, f);
    }
  }

  /** Its severity and its confidence are the highest of the group, as the first finding that has them spells them. */
  lemma MergeIsLoudest(family: string, group: seq<Finding>)
    requires IsGroup(family, group)
    ensures var a := Merge(family, group);
      && (forall f | f in group :: SeverityRank(f.severity) <= SeverityRank(a.finding.severity))
      && (exists i | 0 <= i < |group| ::
            && a.finding.severity == group[i].severity
            && forall j | 0 <= j < i :: SeverityRank(group[j].severity) < SeverityRank(a.finding.severity))
      && (forall f | f in group :: ConfidenceRank(ConfidenceOf(f)) <= ConfidenceRank(ConfidenceOf(a.finding)))
      && (exists i | 0 <= i < |group| ::
            && ConfidenceOf(a.finding) == ConfidenceOf(group[i])
            && forall j | 0 <= j < i ::
                ConfidenceRank(ConfidenceOf(group[j])) < ConfidenceRank(ConfidenceOf(a.finding)))
  {
    hide ByPriority, SeverityRank, ConfidenceRank, FamilyOf, FamilyPriority, BestBy, FirstLine, FamilyMessage, Present;
    SeverityIsAttained(group);
  }

  lemma SeverityIsAttained(group: seq<Finding>)
    requires group != []
    ensures var best := BestBy(group, SeverityOf, SeverityRank);
      exists i | 0 <= i < |group| ::
        best == group[i].severity && forall j | 0 <= j < i :: SeverityRank(group[j].severity) < SeverityRank(best)
  {
    hide BestBy, SeverityRank;
    var best := BestBy(group, SeverityOf, SeverityRank);
    var value := SeverityOf;
    var i: nat :| IsFirstBest(group, value, SeverityRank, best, i);
    assert forall j | 0 <= j < |group| :: value(group[j]) == group[j].severity;
  }

  function AbsorbedSites(file: string, absorbed: seq<(string, int)>): seq<Site> {
    if absorbed == [] then [] else [Site(file, absorbed[0].1, absorbed[0].0)] + AbsorbedSites(file, absorbed[1..])
  }

  /** The findings an alert stands for: itself and what `consolidated_from` lists. */
  function Trace(a: Alert): seq<Site> {
    [AlertSite(a)] + AbsorbedSites(a.finding.file, a.absorbed)
  }

  lemma {:induction false} AbsorbIsTrace(file: string, members: seq<Finding>)
    requires forall f | f in members :: f.file == file
    ensures AbsorbedSites(file, Absorb(members)) == Sites(members)
  {
    if members != [] {
      AbsorbIsTrace(file, members[1..]);
      assert Absorb(members)[1..] == Absorb(members[1..]);
    }
  }

  ghost predicate BucketsOf(byCwe: map<string, seq<Finding>>, group: seq<Finding>) {
    forall cwe :: if cwe in byCwe then byCwe[cwe] == OfCwe(group, cwe) && byCwe[cwe] != [] else OfCwe(group, cwe) == []
  }

  method BucketByCwe(group: seq<Finding>) returns (byCwe: map<string, seq<Finding>>)
    ensures BucketsOf(byCwe, group)
  {
    hide OfCwe;
    byCwe := map[];
    assert BucketsOf(byCwe, []) by { NoneOfCwe(); }
    assert group[..0] == [];
    for i := 0 to |group|
      invariant BucketsOf(byCwe, group[..i])
    {
      var f := group[i];
      OfCweStep(group, i);
      byCwe := byCwe[f.cwe := (if f.cwe in byCwe then byCwe[f.cwe] else []) + [f]];
    }
    assert group[..|group|] == group;
  }

  lemma NoneOfCwe()
    ensures forall cwe :: OfCwe([], cwe) == []
  {
  }

  lemma ByPriorityStep(priority: seq<string>, group: seq<Finding>, p: nat)
    requires p <= |priority|
    ensures p < |priority| ==>
              ByPriority(priority[p..], group) == OfCwe(group, priority[p]) + ByPriority(priority[p + 1..], group)
    ensures p == |priority| ==> ByPriority(priority[p..], group) == [] && Present(priority[p..], group) == []
    ensures p < |priority| ==>
              Present(priority[p..], group)
              == (if OfCwe(group, priority[p]) != [] then [priority[p]] else []) + Present(priority[p + 1..], group)
  {
    if p < |priority| {
      assert priority[p..][1..] == priority[p + 1..];
    }
  }

  /** The members in the order of the loops: the representative is the first one of the first CWE, by
      priority, that has members; the rest follow. */
  method OrderMembers(priority: seq<string>, group: seq<Finding>)
    returns (representative: Finding, absorbed: seq<Finding>, present: seq<string>)
    requires ByPriority(priority, group) != []
    ensures [representative] + absorbed == ByPriority(priority, group)
    ensures present == Present(priority, group)
  {
    hide ByPriority, OfCwe, Present;
    var byCwe := BucketByCwe(group);
    ghost var members, cwes := ByPriority(priority, group), Present(priority, group);
    var p := 0;
    assert priority[0..] == priority;
    ByPriorityStep(priority, group, 0);
    while p < |priority| && priority[p] !in byCwe
      invariant 0 <= p <= |priority| && ByPriority(priority[p..], group) == members
      invariant Present(priority[p..], group) == cwes
    {
      ByPriorityStep(priority, group, p);
      p := p + 1;
    }
    ByPriorityStep(priority, group, p);
    var first := byCwe[priority[p]];
    representative, absorbed, present := first[0], first[1..], [priority[p]];
    SplitFirst(first);
    for q := p + 1 to |priority|
      invariant [representative] + absorbed + ByPriority(priority[q..], group) == members
      invariant present + Present(priority[q..], group) == cwes
    {
      ByPriorityStep(priority, group, q);
      var more := if priority[q] in byCwe then byCwe[priority[q]] else [];
      var found := if priority[q] in byCwe then [priority[q]] else [];
      Assoc([representative], absorbed, more);
      Assoc([representative] + absorbed, more, ByPriority(priority[q + 1..], group));
      Assoc(present, found, Present(priority[q + 1..], group));
      absorbed, present := absorbed + more, present + found;
    }
    ByPriorityStep(priority, group, |priority|);
  }

  /** `_consolidate_family` */
  method ConsolidateFamily(family: string, group: seq<Finding>) returns (alert: Alert)
    requires IsGroup(family, group)
    ensures alert == Merge(family, group)
  {
    hide FamilyPriority, BestBy, FirstLine, FamilyOf, IsGroup, ByPriority, Present, FamilyMessage;
    IsGroupIsNonempty(family, group);
    GroupPermutes(family, group);
    var representative, absorbed, present := OrderMembers(FamilyPriority(family), group);
    ghost var members := ByPriority(FamilyPriority(family), group);
    assert members[0] == representative && members[1..] == absorbed;
    alert := Alert(
      representative.(line := FirstLine(group), severity := BestBy(group, SeverityOf, SeverityRank),
                      confidence := Some(BestBy(group, ConfidenceOf, ConfidenceRank)),
                      message := FamilyMessage(family, representative.cwe, present, representative.message)),
      Absorb(absorbed));
  }

  lemma IsGroupIsNonempty(family: string, group: seq<Finding>)
    requires IsGroup(family, group)
    ensures group != []
  {
  }

  lemma {:induction false} OfCweConcat(a: seq<Finding>, b: seq<Finding>, cwe: string)
    ensures OfCwe(a + b, cwe) == OfCwe(a, cwe) + OfCwe(b, cwe)
  {
    if a == [] {
      assert a + b == b;
    } else {
      assert (a + b)[1..] == a[1..] + b;
      OfCweConcat(a[1..], b, cwe);
    }
  }

  lemma OfCweStep(group: seq<Finding>, i: nat)
    requires i < |group|
    ensures forall cwe :: OfCwe(group[..i + 1], cwe)
                          == OfCwe(group[..i], cwe) + if group[i].cwe == cwe then [group[i]] else []
  {
    forall cwe
      ensures OfCwe(group[..i + 1], cwe) == OfCwe(group[..i], cwe) + if group[i].cwe == cwe then [group[i]] else []
    {
      assert group[..i + 1] == group[..i] + [group[i]];
      OfCweConcat(group[..i], [group[i]], cwe);
    }
  }

  // ---------------------------------------------------------------- all findings

  function Group(fs: seq<Finding>, k: Key): (r: seq<Finding>)
    ensures forall f | f in r :: f in fs && KeyOf(f) == Some(k)
  {
    if fs == [] then []
    else if KeyOf(fs[0]) == Some(k) then [fs[0]] + Group(fs[1..], k)
    else Group(fs[1..], k)
  }

  /** The findings whose key is not among the given ones. */
  function Without(fs: seq<Finding>, keys: set<Key>): (r: seq<Finding>)
    ensures |r| <= |fs|
    ensures forall f | f in r :: f in fs && (KeyOf(f).Some? ==> KeyOf(f).value !in keys)
  {
    if fs == [] then []
    else if KeyOf(fs[0]).Some? && KeyOf(fs[0]).value in keys then Without(fs[1..], keys)
    else [fs[0]] + Without(fs[1..], keys)
  }

  lemma GroupOfFirst(fs: seq<Finding>)
    requires fs != [] && KeyOf(fs[0]).Some?
    ensures var k := KeyOf(fs[0]).value; fs[0] in Group(fs, k) && IsGroup(k.family, Group(fs, k))
  {
    hide FamilyOf;
  }

  /** One alert per key, where the key first occurs; other findings pass through. */
  function Emitted(fs: seq<Finding>): seq<Alert>
    decreases |fs|
  {
    if fs == [] then []
    else match KeyOf(fs[0])
         case None => [Alert(fs[0], [])] + Emitted(fs[1..])
         case Some(k) =>
           GroupOfFirst(fs);
           [Merge(k.family, Group(fs, k))] + Emitted(Without(fs[1..], {k}))
  }

  function Consolidated(fs: seq<Finding>): seq<Alert> {
    Sort(Emitted(fs))
  }

  lemma {:induction false} GroupConcat(a: seq<Finding>, b: seq<Finding>, k: Key)
    ensures Group(a + b, k) == Group(a, k) + Group(b, k)
  {
    hide KeyOf;
    if a == [] {
      assert a + b == b;
    } else {
      assert (a + b)[1..] == a[1..] + b;
      GroupConcat(a[1..], b, k);
    }
  }

  lemma {:induction false} GroupOfWithout(fs: seq<Finding>, keys: set<Key>, k: Key)
    requires k !in keys
    ensures Group(Without(fs, keys), k) == Group(fs, k)
  {
    hide KeyOf;
    if fs != [] {
      GroupOfWithout(fs[1..], keys, k);
    }
  }

  lemma {:induction false} WithoutOneMore(fs: seq<Finding>, keys: set<Key>, k: Key)
    ensures Without(Without(fs, keys), {k}) == Without(fs, keys + {k})
  {
    hide KeyOf;
    if fs != [] {
      WithoutOneMore(fs[1..], keys, k);
    }
  }

  lemma {:induction false} WithoutNothing(fs: seq<Finding>)
    ensures Without(fs, {}) == fs
  {
    if fs != [] {
      WithoutNothing(fs[1..]);
    }
  }

  lemma GroupStep(fs: seq<Finding>, i: nat, k: Key)
    requires i < |fs|
    ensures Group(fs[..i + 1], k) == Group(fs[..i], k) + if KeyOf(fs[i]) == Some(k) then [fs[i]] else []
  {
    assert fs[..i + 1] == fs[..i] + [fs[i]];
    GroupConcat(fs[..i], [fs[i]], k);
  }

  ghost predicate BucketsAre(buckets: map<Key, seq<Finding>>, fs: seq<Finding>) {
    forall k :: if k in buckets then buckets[k] == Group(fs, k) else Group(fs, k) == []
  }

  lemma BucketsStep(buckets: map<Key, seq<Finding>>, fs: seq<Finding>, i: nat)
    requires i < |fs| && BucketsAre(buckets, fs[..i])
    ensures KeyOf(fs[i]).None? ==> BucketsAre(buckets, fs[..i + 1])
    ensures KeyOf(fs[i]).Some? ==>
              var key := KeyOf(fs[i]).value;
              BucketsAre(buckets[key := (if key in buckets then buckets[key] else []) + [fs[i]]], fs[..i + 1])
  {
    hide KeyOf, Group;
    forall k { GroupStep(fs, i, k); }
  }

  /** The first pass of `consolidate_findings` */
  method Buckets(fs: seq<Finding>) returns (buckets: map<Key, seq<Finding>>)
    ensures BucketsAre(buckets, fs)
  {
    hide KeyOf;
    buckets := map[];
    assert BucketsAre(buckets, fs[..0]);
    for i := 0 to |fs|
      invariant BucketsAre(buckets, fs[..i])
    {
      hide Group, BucketsAre;
      BucketsStep(buckets, fs, i);
      if KeyOf(fs[i]).Some? {
        var key := KeyOf(fs[i]).value;
        buckets := buckets[key := (if key in buckets then buckets[key] else []) + [fs[i]]];
      }
    }
    assert fs[..|fs|] == fs;
  }

  lemma EmittedStep(fs: seq<Finding>, i: nat, emitted: set<Key>)
    requires i < |fs| && forall k | k !in emitted :: Group(fs[i..], k) == Group(fs, k)
    ensures KeyOf(fs[i]).None? ==>
              Emitted(Without(fs[i..], emitted)) == [Alert(fs[i], [])] + Emitted(Without(fs[i + 1..], emitted))
    ensures KeyOf(fs[i]).Some? && KeyOf(fs[i]).value in emitted ==>
              Without(fs[i..], emitted) == Without(fs[i + 1..], emitted)
    ensures KeyOf(fs[i]).Some? && KeyOf(fs[i]).value !in emitted ==>
              var k := KeyOf(fs[i]).value;
              && IsGroup(k.family, Group(fs, k))
              && Emitted(Without(fs[i..], emitted))
                 == [Merge(k.family, Group(fs, k))] + Emitted(Without(fs[i + 1..], emitted + {k}))
  {
    hide KeyOf, Merge, IsGroup;
    assert fs[i..][1..] == fs[i + 1..];
    var rest := Without(fs[i..], emitted);
    if KeyOf(fs[i]).Some? && KeyOf(fs[i]).value !in emitted {
      var k := KeyOf(fs[i]).value;
      assert rest[1..] == Without(fs[i + 1..], emitted);
      GroupOfFirst(rest);
      GroupOfWithout(fs[i..], emitted, k);
      WithoutOneMore(fs[i + 1..], emitted, k);
    } else if KeyOf(fs[i]).None? {
      assert rest[1..] == Without(fs[i + 1..], emitted);
    }
  }

  lemma GroupOfTail(fs: seq<Finding>, i: nat, k: Key)
    requires i < |fs| && KeyOf(fs[i]) != Some(k)
    ensures Group(fs[i + 1..], k) == Group(fs[i..], k)
  {
    assert fs[i..][1..] == fs[i + 1..];
  }

  /** `consolidate_findings` */
  method ConsolidateFindings(fs: seq<Finding>) returns (alerts: seq<Alert>)
    ensures alerts == Consolidated(fs)
  {
    hide KeyOf, Emitted, Merge, Without, Group, Sort, IsGroup;
    var buckets := Buckets(fs);
    var emitted: set<Key> := {};
    var consolidated: seq<Alert> := [];
    WithoutNothing(fs);
    assert fs[0..] == fs;
    for i := 0 to |fs|
      invariant consolidated + Emitted(Without(fs[i..], emitted)) == Emitted(fs)
      invariant forall k | k !in emitted :: Group(fs[i..], k) == Group(fs, k)
    {
      EmittedStep(fs, i, emitted);
      ghost var front := consolidated;
      forall k | KeyOf(fs[i]) != Some(k) { GroupOfTail(fs, i, k); }
      match KeyOf(fs[i])
      case None =>
        consolidated := consolidated + [Alert(fs[i], [])];
        Assoc(front, [Alert(fs[i], [])], Emitted(Without(fs[i + 1..], emitted)));
      case Some(key) =>
        if key !in emitted {
          IsGroupIsNonempty(key.family, Group(fs, key));
          emitted := emitted + {key};
          var alert := ConsolidateFamily(key.family, buckets[key]);
          consolidated := consolidated + [alert];
          Assoc(front, [alert], Emitted(Without(fs[i + 1..], emitted)));
        }
    }
    NothingEmitted(emitted);
    assert fs[|fs|..] == [];
    assert consolidated + [] == consolidated;
    alerts := Sort(consolidated);
  }

  lemma NothingEmitted(keys: set<Key>)
    ensures Emitted(Without([], keys)) == []
  {
  }

  // ---------------------------------------------------------------- what the report keeps

  function AllTraces(alerts: seq<Alert>): seq<Site> {
    if alerts == [] then [] else Trace(alerts[0]) + AllTraces(alerts[1..])
  }

  function AbsorbedTotal(alerts: seq<Alert>): nat {
    if alerts == [] then 0 else |alerts[0].absorbed| + AbsorbedTotal(alerts[1..])
  }

  lemma {:induction false} GroupCounts(fs: seq<Finding>, k: Key)
    ensures |Group(fs, k)| + |Without(fs, {k})| == |fs|
  {
    hide KeyOf;
    if fs != [] {
      GroupCounts(fs[1..], k);
    }
  }

  lemma {:induction false} GroupSplits(fs: seq<Finding>, k: Key)
    ensures multiset(Sites(Group(fs, k))) + multiset(Sites(Without(fs, {k}))) == multiset(Sites(fs))
  {
    hide KeyOf, SiteOf, Sites;
    if fs == [] {
      NoSites();
    } else {
      GroupSplits(fs[1..], k);
      SplitFirst(fs);
      SitesCons(fs[0], fs[1..]);
      SitesCons(fs[0], Group(fs[1..], k));
      SitesCons(fs[0], Without(fs[1..], {k}));
    }
  }

  lemma {:induction false} EmittedConserves(fs: seq<Finding>)
    ensures |Emitted(fs)| + AbsorbedTotal(Emitted(fs)) == |fs|
    ensures multiset(AllTraces(Emitted(fs))) == multiset(Sites(fs))
    decreases |fs|
  {
    hide KeyOf, Merge, IsGroup, Trace;
    if fs != [] {
      match KeyOf(fs[0])
      case None =>
        EmittedConserves(fs[1..]);
        TraceOfPlain(fs[0]);
      case Some(k) =>
        var rest := Without(fs[1..], {k});
        EmittedConserves(rest);
        GroupOfFirst(fs);
        MergeAccounts(k, Group(fs, k));
        GroupCounts(fs, k);
        GroupSplits(fs, k);
        assert Without(fs, {k}) == rest;
    }
  }

  lemma TraceOfPlain(f: Finding)
    ensures Trace(Alert(f, [])) == [SiteOf(f)]
  {
  }

  lemma {:induction false} InsertConserves(a: Alert, sorted: seq<Alert>)
    ensures AbsorbedTotal(Insert(a, sorted)) == |a.absorbed| + AbsorbedTotal(sorted)
    ensures multiset(AllTraces(Insert(a, sorted))) == multiset(Trace(a)) + multiset(AllTraces(sorted))
    ensures |Insert(a, sorted)| == |sorted| + 1
  {
    hide SiteAtMost, AlertSite, Trace;
    if sorted != [] && !SiteAtMost(AlertSite(a), AlertSite(sorted[0])) {
      InsertConserves(a, sorted[1..]);
    }
  }

  lemma {:induction false} SortConserves(alerts: seq<Alert>)
    ensures AbsorbedTotal(Sort(alerts)) == AbsorbedTotal(alerts) && |Sort(alerts)| == |alerts|
    ensures multiset(AllTraces(Sort(alerts))) == multiset(AllTraces(alerts))
  {
    hide Insert, Trace;
    if alerts != [] {
      SortConserves(alerts[1..]);
      InsertConserves(alerts[0], Sort(alerts[1..]));
    }
  }

  /** Consolidation conserves findings: alerts plus absorbed entries are as many as the inputs, and each
      input's file, line and CWE is there exactly once, as an alert or in a `consolidated_from`. */
  lemma ConsolidationConserves(fs: seq<Finding>)
    ensures |Consolidated(fs)| + AbsorbedTotal(Consolidated(fs)) == |fs|
    ensures multiset(AllTraces(Consolidated(fs))) == multiset(Sites(fs))
  {
    hide Emitted, Sort;
    EmittedConserves(fs);
    SortConserves(Emitted(fs));
  }

  /** No two alerts share a family, a file and a line. */
  ghost predicate OnePerKey(alerts: seq<Alert>) {
    forall i, j | 0 <= i < j < |alerts| && KeyOf(alerts[i].finding).Some? ::
      KeyOf(alerts[i].finding) != KeyOf(alerts[j].finding)
  }

  ghost predicate HasKey(alerts: seq<Alert>, k: Key) {
    exists a :: a in alerts && KeyOf(a.finding) == Some(k)
  }

  lemma {:induction false} EmittedOnePerKey(fs: seq<Finding>)
    ensures OnePerKey(Emitted(fs))
    ensures forall a | a in Emitted(fs) && KeyOf(a.finding).Some? ::
              exists f :: f in fs && KeyOf(f) == KeyOf(a.finding)
    decreases |fs|
  {
    hide KeyOf, Merge, IsGroup;
    if fs != [] {
      match KeyOf(fs[0])
      case None =>
        EmittedOnePerKey(fs[1..]);
      case Some(k) =>
        var rest := Without(fs[1..], {k});
        EmittedOnePerKey(rest);
        GroupOfFirst(fs);
        MergeAccounts(k, Group(fs, k));
    }
  }

  lemma {:induction false} InsertOnePerKey(a: Alert, sorted: seq<Alert>)
    requires OnePerKey(sorted) && (KeyOf(a.finding).Some? ==> !HasKey(sorted, KeyOf(a.finding).value))
    ensures OnePerKey(Insert(a, sorted))
  {
    hide KeyOf, SiteAtMost, AlertSite;
    if sorted != [] {
      if SiteAtMost(AlertSite(a), AlertSite(sorted[0])) {
        assert forall j | 0 <= j < |sorted| :: sorted[j] in sorted;
      } else {
        var rest := Insert(a, sorted[1..]);
        assert forall x | x in sorted[1..] :: x in sorted;
        InsertOnePerKey(a, sorted[1..]);
        assert sorted[0] in sorted;
        forall j | 0 <= j < |rest| && KeyOf(sorted[0].finding).Some?
          ensures KeyOf(rest[j].finding) != KeyOf(sorted[0].finding)
        {
          assert rest[j] in multiset(rest);
          assert rest[j] == a || rest[j] in sorted[1..];
        }
      }
    }
  }

  lemma {:induction false} SortOnePerKey(alerts: seq<Alert>)
    requires OnePerKey(alerts)
    ensures OnePerKey(Sort(alerts))
  {
    hide KeyOf, Insert;
    if alerts != [] {
      SortOnePerKey(alerts[1..]);
      var sorted := Sort(alerts[1..]);
      forall x | x in sorted
        ensures x in alerts[1..]
      {
        assert x in multiset(sorted);
      }
      InsertOnePerKey(alerts[0], sorted);
    }
  }

  /** Where an alert comes from: an input that no family claims, unchanged, or the merge of all the
      inputs with one key. */
  ghost predicate ComesFrom(a: Alert, fs: seq<Finding>) {
    match KeyOf(a.finding)
    case None => a.finding in fs && a.absorbed == []
    case Some(k) => IsGroup(k.family, Group(fs, k)) && a == Merge(k.family, Group(fs, k))
  }

  lemma {:induction false} EmittedComesFrom(fs: seq<Finding>, a: Alert)
    requires a in Emitted(fs)
    ensures ComesFrom(a, fs)
    decreases |fs|
  {
    hide KeyOf, Merge, IsGroup;
    match KeyOf(fs[0])
    case None =>
      if a != Alert(fs[0], []) {
        EmittedComesFrom(fs[1..], a);
      }
    case Some(k) =>
      GroupOfFirst(fs);
      MergeAccounts(k, Group(fs, k));
      if a != Merge(k.family, Group(fs, k)) {
        var rest := Without(fs[1..], {k});
        EmittedComesFrom(rest, a);
        if KeyOf(a.finding).Some? {
          var other := KeyOf(a.finding).value;
          IsGroupHasMember(other, rest);
          GroupOfWithout(fs[1..], {k}, other);
        }
      }
  }

  lemma IsGroupHasMember(k: Key, fs: seq<Finding>)
    requires IsGroup(k.family, Group(fs, k))
    ensures exists f :: f in fs && KeyOf(f) == Some(k)
  {
    assert Group(fs, k)[0] in Group(fs, k);
  }

  /** The report: sorted, one alert per family and place, each alert a passed-through input or the merge
      of its whole group with the group's highest severity and confidence, and no input without its
      alert. */
  lemma ReportIsRight(fs: seq<Finding>)
    ensures Sorted(Consolidated(fs)) && OnePerKey(Consolidated(fs))
    ensures forall a | a in Consolidated(fs) :: ComesFrom(a, fs)
  {
    hide Emitted, Sort, ComesFrom, Sorted, OnePerKey;
    SortSorts(Emitted(fs));
    EmittedOnePerKey(fs);
    SortOnePerKey(Emitted(fs));
    forall a | a in Consolidated(fs)
      ensures ComesFrom(a, fs)
    {
      assert a in multiset(Sort(Emitted(fs)));
      assert a in multiset(Emitted(fs)) && a in Emitted(fs);
      EmittedComesFrom(fs, a);
    }
  }

  /** Every input of a family has its alert, at its file and line, at least as severe and as confident. */
  lemma NothingIsPlayedDown(fs: seq<Finding>, f: Finding)
    requires f in fs && KeyOf(f).Some?
    ensures exists a :: a in Consolidated(fs) && KeyOf(a.finding) == KeyOf(f)
    ensures forall a | a in Consolidated(fs) && KeyOf(a.finding) == KeyOf(f) ::
              && SeverityRank(a.finding.severity) >= SeverityRank(f.severity)
              && ConfidenceRank(ConfidenceOf(a.finding)) >= ConfidenceRank(ConfidenceOf(f))
  {
    hide Emitted, Sort, KeyOf, Merge, IsGroup, SeverityRank, ConfidenceRank, ConfidenceOf, Sorted, OnePerKey;
    ReportIsRight(fs);
    InItsGroup(fs, f);
    var k := KeyOf(f).value;
    EmittedHas(fs, f);
    assert multiset(Consolidated(fs)) == multiset(Emitted(fs));
    var a :| a in Emitted(fs) && KeyOf(a.finding) == KeyOf(f);
    assert a in multiset(Consolidated(fs)) && a in Consolidated(fs);
    forall b | b in Consolidated(fs) && KeyOf(b.finding) == KeyOf(f)
      ensures SeverityRank(b.finding.severity) >= SeverityRank(f.severity)
      ensures ConfidenceRank(ConfidenceOf(b.finding)) >= ConfidenceRank(ConfidenceOf(f))
    {
      assert ComesFrom(b, fs);
      MergeIsLoudest(k.family, Group(fs, k));
    }
  }

  lemma {:induction false} InItsGroup(fs: seq<Finding>, f: Finding)
    requires f in fs && KeyOf(f).Some?
    ensures f in Group(fs, KeyOf(f).value)
  {
    hide KeyOf;
    if fs[0] != f {
      InItsGroup(fs[1..], f);
    }
  }

  lemma {:induction false} EmittedHas(fs: seq<Finding>, f: Finding)
    requires f in fs && KeyOf(f).Some?
    ensures exists a :: a in Emitted(fs) && KeyOf(a.finding) == KeyOf(f)
    decreases |fs|
  {
    hide KeyOf, Merge, IsGroup;
    match KeyOf(fs[0])
    case None =>
      EmittedHas(fs[1..], f);
      var a :| a in Emitted(fs[1..]) && KeyOf(a.finding) == KeyOf(f);
      assert a in Emitted(fs);
    case Some(k) =>
      GroupOfFirst(fs);
      MergeAccounts(k, Group(fs, k));
      assert Merge(k.family, Group(fs, k)) in Emitted(fs);
      if KeyOf(f) != Some(k) {
        var rest := Without(fs[1..], {k});
        InWithout(fs[1..], k, f);
        EmittedHas(rest, f);
        var a :| a in Emitted(rest) && KeyOf(a.finding) == KeyOf(f);
        assert a in Emitted(fs);
      }
  }

  lemma {:induction false} InWithout(fs: seq<Finding>, k: Key, f: Finding)
    requires f in fs && KeyOf(f) != Some(k)
    ensures f in Without(fs, {k})
  {
    hide KeyOf;
    if fs[0] != f {
      InWithout(fs[1..], k, f);
    }
  }

  // ---------------------------------------------------------------- consolidating again

  function FindingsOf(alerts: seq<Alert>): (r: seq<Finding>)
    ensures |r| == |alerts| && forall i | 0 <= i < |r| :: r[i] == alerts[i].finding
  {
    if alerts == [] then [] else [alerts[0].finding] + FindingsOf(alerts[1..])
  }

  ghost predicate SameDefect(a: Finding, b: Finding) {
    a.file == b.file && a.line == b.line && a.cwe == b.cwe && a.severity == b.severity
  }

  ghost predicate DistinctKeys(fs: seq<Finding>) {
    forall i, j | 0 <= i < j < |fs| && KeyOf(fs[i]).Some? :: KeyOf(fs[i]) != KeyOf(fs[j])
  }

  lemma {:induction false} WithoutAbsent(fs: seq<Finding>, k: Key)
    requires forall f | f in fs :: KeyOf(f) != Some(k)
    ensures Without(fs, {k}) == fs && Group(fs, k) == []
  {
    hide KeyOf;
    if fs != [] {
      WithoutAbsent(fs[1..], k);
      SplitFirst(fs);
    }
  }

  lemma {:induction false} ByPriorityOfOne(priority: seq<string>, f: Finding)
    requires forall i, j | 0 <= i < j < |priority| :: priority[i] != priority[j]
    ensures ByPriority(priority, [f]) == if f.cwe in priority then [f] else []
  {
    if priority != [] {
      ByPriorityOfOne(priority[1..], f);
      assert OfCwe([f], priority[0]) == if f.cwe == priority[0] then [f] else [];
    }
  }

  lemma MergeOfOne(k: Key, f: Finding)
    requires KeyOf(f) == Some(k)
    ensures IsGroup(k.family, [f]) && SameDefect(Merge(k.family, [f]).finding, f)
    ensures Merge(k.family, [f]).absorbed == []
  {
    hide FamilyOf, FamilyPriority, FamilyMessage, Present;
    FamilyMembers(k.family);
    FamilyCwes(f.cwe);
    ByPriorityOfOne(FamilyPriority(k.family), f);
  }

  lemma {:induction false} EmittedAgain(fs: seq<Finding>)
    requires DistinctKeys(fs)
    ensures |Emitted(fs)| == |fs| && AbsorbedTotal(Emitted(fs)) == 0
    ensures forall i | 0 <= i < |fs| :: SameDefect(Emitted(fs)[i].finding, fs[i])
    decreases |fs|
  {
    hide KeyOf, Merge, IsGroup;
    if fs != [] {
      EmittedAgain(fs[1..]);
      match KeyOf(fs[0])
      case None =>
      case Some(k) =>
        WithoutAbsent(fs[1..], k);
        assert Group(fs, k) == [fs[0]];
        MergeOfOne(k, fs[0]);
    }
  }

  /** Consolidating a report again changes no file, line, CWE or severity, and keeps its order; but it
      overwrites what the first pass absorbed with nothing. */
  lemma ConsolidatingAgainChangesNothing(fs: seq<Finding>)
    ensures var once := Consolidated(fs);
      var again := Consolidated(FindingsOf(once));
      && |again| == |once| && (forall i | 0 <= i < |once| :: SameDefect(again[i].finding, once[i].finding))
      && AbsorbedTotal(again) == 0
  {
    hide Emitted, Sort, KeyOf, ComesFrom, SiteAtMost, AbsorbedTotal;
    var once := Consolidated(fs);
    ReportIsRight(fs);
    var g := FindingsOf(once);
    EmittedAgain(g);
    var e := Emitted(g);
    forall i | 0 <= i < |e|
      ensures AlertSite(e[i]) == AlertSite(once[i])
    {
      assert SameDefect(e[i].finding, g[i]);
    }
    SortedStays(e);
  }

  lemma {:induction false} NothingLeftOut(fs: seq<Finding>, k: Key)
    requires |Without(fs, {k})| == |fs|
    ensures Without(fs, {k}) == fs && forall f | f in fs :: KeyOf(f) != Some(k)
  {
    hide KeyOf;
    if fs != [] {
      NothingLeftOut(fs[1..], k);
      SplitFirst(fs);
    }
  }

  lemma {:induction false} NothingAbsorbed(fs: seq<Finding>)
    requires AbsorbedTotal(Emitted(fs)) == 0
    ensures DistinctKeys(fs)
    decreases |fs|
  {
    hide KeyOf, Merge, IsGroup, Trace;
    if fs != [] {
      match KeyOf(fs[0])
      case None =>
        assert Emitted(fs)[1..] == Emitted(fs[1..]);
        NothingAbsorbed(fs[1..]);
      case Some(k) =>
        var rest := Without(fs[1..], {k});
        GroupOfFirst(fs);
        MergeAccounts(k, Group(fs, k));
        GroupCounts(fs, k);
        assert Emitted(fs)[1..] == Emitted(rest);
        NothingLeftOut(fs[1..], k);
        NothingAbsorbed(rest);
        assert forall j | 0 < j < |fs| :: fs[j] == fs[1..][j - 1] && fs[j] in fs[1..];
    }
  }

  /** So two passes account for all findings exactly when no two findings share a family, a file and a line. */
  lemma TwoPassesConserveIff(fs: seq<Finding>)
    ensures var again := Consolidated(FindingsOf(Consolidated(fs)));
      |again| + AbsorbedTotal(again) == |fs| <==> DistinctKeys(fs)
  {
    hide Emitted, Sort, AbsorbedTotal, SameDefect, KeyOf;
    ConsolidationConserves(fs);
    ConsolidatingAgainChangesNothing(fs);
    SortConserves(Emitted(fs));
    if DistinctKeys(fs) {
      EmittedAgain(fs);
    } else if AbsorbedTotal(Emitted(fs)) == 0 {
      NothingAbsorbed(fs);
      assert false;
    }
  }

  lemma OneGroupOfTwo(f: Finding, g: Finding, k: Key)
    requires KeyOf(f) == Some(k) && KeyOf(g) == Some(k)
    ensures IsGroup(k.family, [f, g]) && Emitted([f, g]) == [Merge(k.family, [f, g])]
  {
    hide KeyOf, Merge, IsGroup;
    var fs := [f, g];
    assert fs[1..] == [g] && [g][1..] == [];
    assert Group([g], k) == [g] + Group([], k) && Group(fs, k) == [f] + Group([g], k);
    assert Without([g], {k}) == Without([], {k}) == [];
    assert [g] + [] == [g] && [f] + [g] == fs;
    assert Group(fs, k) == fs;
    GroupOfFirst(fs);
    assert Emitted(Without([g], {k})) == Emitted([]) == [];
    assert [Merge(k.family, fs)] + [] == [Merge(k.family, fs)];
  }

  /** Two weak-hash findings at one place: the second pass forgets the one absorbed by the first. */
  lemma SecondPassForgets(f: Finding)
    requires f.cwe == "CWE-327"
    ensures var fs := [f, f.(cwe := "CWE-916")];
      AbsorbedTotal(Consolidated(fs)) == 1 && AbsorbedTotal(Consolidated(FindingsOf(Consolidated(fs)))) == 0
  {
    hide Merge, Insert, Trace, Emitted, FindingsOf, SameDefect, Sort;
    var g := f.(cwe := "CWE-916");
    var fs := [f, g];
    ConsolidatingAgainChangesNothing(fs);
    var k := Key("CRYPTO_HASH", f.file, f.line);
    assert KeyOf(f) == Some(k) && KeyOf(g) == Some(k);
    OneGroupOfTwo(f, g, k);
    MergeAccounts(k, fs);
    SortConserves(Emitted(fs));
    assert Emitted(fs)[1..] == [];
  }
}
