/** The template auditor as a machine over parser events: the stack of open state-changing forms,
    the verbatim depth and the deduplicated findings. */
module TemplateAuditor {
  import opened Options
  import opened Text

  datatype Attr = Attr(key: Option<string>, value: Option<string>)

  /** What the parser hands over. A data event carries, for each `|safe` match on an untrusted
      expression, the number of newlines before the match. */
  datatype Event =
    | StartTag(line: int, tag: string, attrs: seq<Attr>, selfClosing: bool)
    | Data(line: int, text: string, unsafeOffsets: seq<nat>)
    | EndTag(endTag: string)

  datatype Identity = Identity(line: int, cwe: string, category: string)

  datatype Finding = Finding(line: int, cwe: string, category: string)

  datatype Frame = Frame(line: int, seen: bool)

  const STATE_CHANGING_FORM_METHODS: set<string> := {"post", "put", "patch", "delete"}
  const CSRF_TOKEN_MARKERS: set<string> := {"csrf_token", "csrfmiddlewaretoken"}
  const VERBATIM_TAGS: set<string> := {"pre", "code", "textarea", "samp", "kbd"}

  // ---------------------------------------------------------------- reading one event

  /** `_normalize_attrs(attrs).get(key, "")`: the last value under a key wins. */
  function AttrOf(attrs: seq<Attr>, key: string): string
    decreases |attrs|
  {
    if attrs == [] then ""
    else
      var last := attrs[|attrs| - 1];
      if last.key.Some? && Lower(last.key.value) == key then (if last.value.Some? then last.value.value else "")
      else AttrOf(attrs[..|attrs| - 1], key)
  }

  predicate IsExternal(url: string) {
    var u := Trim(url);
    "http://" <= u || "https://" <= u || "//" <= u
  }

  predicate LacksIntegrity(attrs: seq<Attr>, urlAttr: string) {
    IsExternal(AttrOf(attrs, urlAttr)) && Trim(AttrOf(attrs, "integrity")) == ""
  }

  /** The start tag opens a form that changes server state. */
  predicate Opens(e: Event) {
    e.StartTag? && Lower(e.tag) == "form" && Lower(Trim(AttrOf(e.attrs, "method"))) in STATE_CHANGING_FORM_METHODS
  }

  predicate Closes(e: Event) {
    e.EndTag? && Lower(e.endTag) == "form"
  }

  /** A token event: the marker in character data, or as the name of an input or button. */
  predicate CarriesToken(e: Event) {
    match e
    case StartTag(_, tag, attrs, _) =>
      Lower(tag) in {"input", "button"} && Lower(Trim(AttrOf(attrs, "name"))) in CSRF_TOKEN_MARKERS
    case Data(_, text, _) =>
      exists marker | marker in CSRF_TOKEN_MARKERS :: Contains(Lower(text), marker)
    case EndTag(_) => false
  }

  function CsrfIdentity(line: int): Identity {
    Identity(line, "CWE-352", "CSRF_MISSING_PROTECTION")
  }

  // ---------------------------------------------------------------- the reference: heights

  /** How many state-changing forms are open after the events. */
  function Height(es: seq<Event>): nat
    decreases |es|
  {
    if es == [] then 0
    else
      var h := Height(es[..|es| - 1]);
      var e := es[|es| - 1];
      if Opens(e) then h + 1 else if Closes(e) && h > 0 then h - 1 else h
  }

  /** The form opened at `i` is still open: the height never came back to what it was before. */
  ghost predicate StillOpen(es: seq<Event>, i: nat) {
    i < |es| && Opens(es[i]) && StaysAbove(es, i, |es|)
  }

  ghost predicate StaysAbove(es: seq<Event>, i: nat, to: nat)
    requires i <= to <= |es|
  {
    forall m | i < m <= to :: Height(es[..m]) > Height(es[..i])
  }

  /** It is the innermost open form. */
  ghost predicate OnTop(es: seq<Event>, i: nat) {
    StillOpen(es, i) && Height(es) == Height(es[..i]) + 1
  }

  /** A token event came while the form was the innermost open one. */
  ghost predicate Protected(es: seq<Event>, i: nat) {
    exists k | i < k < |es| :: CarriesToken(es[k]) && OnTop(es[..k], i)
  }

  /** The verbatim depth, clamped at zero. */
  function Depth(es: seq<Event>): nat
    decreases |es|
  {
    if es == [] then 0
    else
      var d := Depth(es[..|es| - 1]) + Swing(es[|es| - 1]);
      if d < 0 then 0 else d
  }

  function Swing(e: Event): int {
    match e
    case StartTag(_, tag, _, selfClosing) => if Lower(tag) in VERBATIM_TAGS && !selfClosing then 1 else 0
    case Data(_, _, _) => 0
    case EndTag(tag) => if Lower(tag) in VERBATIM_TAGS then -1 else 0
  }

  /** Opening minus closing verbatim tags. */
  function Balance(es: seq<Event>): int {
    if es == [] then 0 else Swing(es[0]) + Balance(es[1..])
  }

  lemma {:induction false} BalanceAppend(es: seq<Event>, e: Event)
    ensures Balance(es + [e]) == Balance(es) + Swing(e)
  {
    if es != [] {
      assert (es + [e])[1..] == es[1..] + [e];
      BalanceAppend(es[1..], e);
    } else {
      assert [e][1..] == [];
    }
  }

  /** Text is verbatim exactly when some stretch of events up to it opened more verbatim tags than it
      closed; surplus closing tags before that stretch cannot hide it. */
  lemma {:induction false} VerbatimIffUnclosed(es: seq<Event>)
    ensures Depth(es) > 0 <==> exists k | 0 <= k <= |es| :: Balance(es[k..]) > 0
  {
    DepthIsPeak(es);
  }

  lemma {:induction false} DepthIsPeak(es: seq<Event>)
    ensures forall k | 0 <= k <= |es| :: Balance(es[k..]) <= Depth(es)
    ensures exists k | 0 <= k <= |es| :: Balance(es[k..]) == Depth(es)
    decreases |es|
  {
    hide Swing, Balance;
    BalanceOfNone();
    assert es[|es|..] == [];
    if es == [] {
      assert Balance(es[0..]) == Depth(es);
    } else {
      var n := |es| - 1;
      DepthIsPeak(es[..n]);
      forall k | 0 <= k <= n
        ensures Balance(es[k..]) == Balance(es[..n][k..]) + Swing(es[n])
      {
        BalanceAppend(es[..n][k..], es[n]);
        assert es[..n][k..] + [es[n]] == es[k..];
      }
      PeakStep(es);
    }
  }

  lemma BalanceOfNone()
    ensures Balance([]) == 0
  {
  }

  lemma PeakStep(es: seq<Event>)
    requires es != [] && Balance(es[|es|..]) == 0
    requires var n := |es| - 1; forall k | 0 <= k <= n :: Balance(es[k..]) == Balance(es[..n][k..]) + Swing(es[n])
    requires var n := |es| - 1; forall k | 0 <= k <= n :: Balance(es[..n][k..]) <= Depth(es[..n])
    requires var n := |es| - 1; exists k | 0 <= k <= n :: Balance(es[..n][k..]) == Depth(es[..n])
    ensures forall k | 0 <= k <= |es| :: Balance(es[k..]) <= Depth(es)
    ensures exists k | 0 <= k <= |es| :: Balance(es[k..]) == Depth(es)
  {
    hide Swing, Balance;
    var n := |es| - 1;
    var peak :| 0 <= peak <= n && Balance(es[..n][peak..]) == Depth(es[..n]);
    var witnessed := if Depth(es[..n]) + Swing(es[n]) >= 0 then peak else |es|;
    assert Balance(es[witnessed..]) == Depth(es);
    forall k | 0 <= k <= |es|
      ensures Balance(es[k..]) <= Depth(es)
    {
      if k <= n {
        assert Balance(es[..n][k..]) <= Depth(es[..n]);
      }
    }
  }

  // ---------------------------------------------------------------- findings without the stack

  function SubresourceFinding(line: int, attrs: seq<Attr>, urlAttr: string): seq<Identity> {
    if LacksIntegrity(attrs, urlAttr) then [Identity(line, "CWE-353", "MISSING_SUBRESOURCE_INTEGRITY")] else []
  }

  function UnsafeOutputs(line: int, offsets: seq<nat>): seq<Identity> {
    seq(|offsets|, k requires 0 <= k < |offsets| => Identity(line + offsets[k], "CWE-79", "CROSS_SITE_SCRIPTING"))
  }

  /** What an event reports by itself after the events before it. */
  function Direct(before: seq<Event>, e: Event): seq<Identity> {
    match e
    case StartTag(line, tag, attrs, _) =>
      if Lower(tag) == "script" then SubresourceFinding(line, attrs, "src")
      else if Lower(tag) == "link" && Contains(Lower(AttrOf(attrs, "rel")), "stylesheet") then
        SubresourceFinding(line, attrs, "href")
      else []
    case Data(line, text, offsets) =>
      if text == "" || Depth(before) != 0 then []
      else UnsafeOutputs(line, offsets)
    case EndTag(_) => []
  }

  ghost predicate DirectlyReported(es: seq<Event>, id: Identity) {
    exists k | 0 <= k < |es| :: id in Direct(es[..k], es[k])
  }

  /** An unprotected form among the popped ones starts on the line of the identity. */
  ghost predicate FormReported(es: seq<Event>, popped: seq<nat>, id: Identity) {
    exists i | i in popped :: Unprotected(es, i, id)
  }

  ghost predicate Unprotected(es: seq<Event>, i: nat, id: Identity) {
    i < |es| && Opens(es[i]) && id == CsrfIdentity(es[i].line) && !Protected(es, i)
  }

  // ---------------------------------------------------------------- one more event

  lemma Prefixes(es: seq<Event>, e: Event)
    ensures forall m | 0 <= m <= |es| :: (es + [e])[..m] == es[..m]
    ensures (es + [e])[..|es| + 1] == es + [e]
  {
  }

  lemma StillOpenAppend(es: seq<Event>, e: Event, i: nat)
    ensures StillOpen(es + [e], i) <==>
            if i < |es| then StillOpen(es, i) && Height(es + [e]) > Height(es[..i]) else i == |es| && Opens(e)
  {
    hide Opens, Closes, Height, StillOpen;
    if i < |es| {
      StillOpenLater(es, e, i);
    } else if i == |es| {
      StillOpenNew(es, e);
    } else {
      NotYetOpen(es + [e], i);
    }
  }

  lemma NotYetOpen(es: seq<Event>, i: nat)
    requires i >= |es|
    ensures !StillOpen(es, i)
  {
  }

  lemma StillOpenNew(es: seq<Event>, e: Event)
    ensures StillOpen(es + [e], |es|) <==> Opens(e)
  {
    hide Opens, Closes, Height, StaysAbove;
    HeightAppend(es, e);
    OpensOnly(e);
    var longer := es + [e];
    StaysAboveStart(longer, |es|);
    StaysAboveStep(longer, |es|, |es|);
    assert longer[..|es| + 1] == longer && longer[..|es|] == es;
  }

  lemma StillOpenLater(es: seq<Event>, e: Event, i: nat)
    requires i < |es|
    ensures StillOpen(es + [e], i) <==> StillOpen(es, i) && Height(es + [e]) > Height(es[..i])
  {
    hide Opens, Closes, Height, StaysAbove;
    var longer := es + [e];
    assert longer[i] == es[i];
    StaysAboveStep(longer, i, |es|);
    StaysAboveAppend(es, e, i);
    assert longer[..|es| + 1] == longer && longer[..i] == es[..i];
  }

  lemma StaysAboveStart(es: seq<Event>, i: nat)
    requires i <= |es|
    ensures StaysAbove(es, i, i)
  {
  }

  lemma StaysAboveStep(es: seq<Event>, i: nat, to: nat)
    requires i <= to < |es|
    ensures StaysAbove(es, i, to + 1) <==> StaysAbove(es, i, to) && Height(es[..to + 1]) > Height(es[..i])
  {
    hide Height;
  }

  lemma StaysAboveAppend(es: seq<Event>, e: Event, i: nat)
    requires i <= |es|
    ensures StaysAbove(es + [e], i, |es|) <==> StaysAbove(es, i, |es|)
  {
    hide Height;
    assert forall m | 0 <= m <= |es| :: (es + [e])[..m] == es[..m];
  }

  lemma ProtectedAppend(es: seq<Event>, e: Event, i: nat)
    requires i < |es|
    ensures Protected(es + [e], i) <==> Protected(es, i) || (CarriesToken(e) && OnTop(es, i))
  {
    hide OnTop, CarriesToken;
    Prefixes(es, e);
    assert (es + [e])[..|es|] == es;
    if Protected(es, i) {
      var k :| i < k < |es| && CarriesToken(es[k]) && OnTop(es[..k], i);
      assert (es + [e])[k] == es[k];
    }
    if Protected(es + [e], i) {
      var k :| i < k < |es| + 1 && CarriesToken((es + [e])[k]) && OnTop((es + [e])[..k], i);
      assert k < |es| ==> (es + [e])[k] == es[k];
    }
  }

  lemma NewFormIsUnprotected(es: seq<Event>, e: Event)
    ensures !Protected(es + [e], |es|)
  {
  }

  lemma DirectAppend(es: seq<Event>, e: Event, id: Identity)
    ensures DirectlyReported(es + [e], id) <==> DirectlyReported(es, id) || id in Direct(es, e)
  {
    hide Direct;
    Prefixes(es, e);
    assert (es + [e])[|es|] == e;
    if DirectlyReported(es, id) {
      var k :| 0 <= k < |es| && id in Direct(es[..k], es[k]);
      assert (es + [e])[k] == es[k];
    }
    if DirectlyReported(es + [e], id) {
      var k :| 0 <= k < |es| + 1 && id in Direct((es + [e])[..k], (es + [e])[k]);
      assert k < |es| ==> (es + [e])[k] == es[k];
    }
  }

  // ---------------------------------------------------------------- what the machine keeps

  /** Frame `p` of the stack belongs to the open form at height `p`, and its flag says whether that
      form is protected so far. */
  ghost predicate Tracks(es: seq<Event>, starts: seq<nat>, frames: seq<Frame>) {
    |starts| == |frames| && forall p | 0 <= p < |starts| :: FrameFor(es, p, starts[p], frames[p])
  }

  ghost predicate FrameFor(es: seq<Event>, p: nat, i: nat, f: Frame) {
    && StillOpen(es, i) && Height(es[..i]) == p
    && f == Frame(es[i].line, Protected(es, i))
  }

  ghost predicate AllOpen(es: seq<Event>, starts: seq<nat>) {
    |starts| == Height(es) && forall i: nat | StillOpen(es, i) :: i in starts
  }

  /** Every form start is in exactly one place, once: on the stack or among the popped. */
  ghost predicate OnceEach(es: seq<Event>, starts: seq<nat>, popped: seq<nat>) {
    && (forall a, b | 0 <= a < b < |popped| :: popped[a] != popped[b])
    && (forall i: nat :: i in popped <==> i < |es| && Opens(es[i]) && i !in starts)
  }

  /** The identities reported so far are exactly these. */
  ghost predicate Accounts(es: seq<Event>, popped: seq<nat>, reported: set<Identity>) {
    forall id :: id in reported <==> DirectlyReported(es, id) || FormReported(es, popped, id)
  }

  function FindingOf(id: Identity): Finding {
    Finding(if id.line < 1 then 1 else id.line, id.cwe, id.category)
  }

  /** One finding per identity. */
  ghost predicate Lists(findings: seq<Finding>, reported: set<Identity>) {
    |findings| == |reported| && forall f :: f in findings <==> exists id :: id in reported && f == FindingOf(id)
  }

  lemma TracksPush(es: seq<Event>, e: Event, starts: seq<nat>, frames: seq<Frame>)
    requires Tracks(es, starts, frames) && AllOpen(es, starts) && Opens(e)
    ensures Tracks(es + [e], starts + [|es|], frames + [Frame(e.line, false)])
    ensures AllOpen(es + [e], starts + [|es|])
  {
    hide StillOpen, Opens, Protected, CarriesToken;
    HeightAppend(es, e);
    OpensOnly(e);
    Prefixes(es, e);
    StillOpenAppend(es, e, |es|);
    NewFormIsUnprotected(es, e);
    forall p | 0 <= p < |starts|
      ensures FrameFor(es + [e], p, starts[p], frames[p])
    {
      assert FrameFor(es, p, starts[p], frames[p]);
      OpenIsEarlier(es, starts[p]);
      StillOpenAppend(es, e, starts[p]);
      ProtectedAppend(es, e, starts[p]);
    }
    forall i: nat | StillOpen(es + [e], i)
      ensures i in starts + [|es|]
    {
      StillOpenAppend(es, e, i);
    }
  }

  lemma HeightAppend(es: seq<Event>, e: Event)
    ensures Height(es + [e]) == if Opens(e) then Height(es) + 1
                                else if Closes(e) && Height(es) > 0 then Height(es) - 1 else Height(es)
  {
    assert (es + [e])[..|es|] == es;
  }

  lemma OpensOnly(e: Event)
    ensures Opens(e) ==> e.StartTag? && !CarriesToken(e) && !Closes(e)
    ensures Closes(e) ==> e.EndTag? && !CarriesToken(e)
  {
  }

  lemma OpenIsEarlier(es: seq<Event>, i: nat)
    ensures StillOpen(es, i) ==> i < |es| && Opens(es[i]) && Height(es) > Height(es[..i])
  {
    if StillOpen(es, i) {
      assert es[..|es|] == es;
    }
  }

  lemma TracksPop(es: seq<Event>, e: Event, starts: seq<nat>, frames: seq<Frame>)
    requires Tracks(es, starts, frames) && AllOpen(es, starts) && Closes(e) && frames != []
    ensures Tracks(es + [e], starts[..|starts| - 1], frames[..|frames| - 1])
    ensures AllOpen(es + [e], starts[..|starts| - 1])
    ensures Protected(es + [e], starts[|starts| - 1]) == frames[|frames| - 1].seen
    ensures var i := starts[|starts| - 1]; i < |es| && Opens(es[i]) && es[i].line == frames[|frames| - 1].line
    ensures starts[|starts| - 1] !in starts[..|starts| - 1]
  {
    hide StillOpen, Opens, Closes, Protected, CarriesToken;
    HeightAppend(es, e);
    OpensOnly(e);
    Prefixes(es, e);
    var n := |starts| - 1;
    forall p | 0 <= p <= n
      ensures FrameFor(es, p, starts[p], frames[p]) && starts[p] < |es|
      ensures Protected(es + [e], starts[p]) == Protected(es, starts[p])
      ensures StillOpen(es + [e], starts[p]) <==> p < n
    {
      assert FrameFor(es, p, starts[p], frames[p]);
      OpenIsEarlier(es, starts[p]);
      StillOpenAppend(es, e, starts[p]);
      ProtectedAppend(es, e, starts[p]);
    }
    OpenIsEarlier(es, starts[n]);
    OpensOnly(es[starts[n]]);
    forall i: nat | StillOpen(es + [e], i)
      ensures i in starts[..n]
    {
      StillOpenAppend(es, e, i);
      var p :| 0 <= p < |starts| && starts[p] == i;
      assert starts[..n][p] == i;
    }
  }

  /** The flags after an event that neither opens nor closes a frame. */
  function Marked(frames: seq<Frame>, e: Event): seq<Frame> {
    if CarriesToken(e) && frames != [] then frames[|frames| - 1 := frames[|frames| - 1].(seen := true)] else frames
  }

  lemma TracksOther(es: seq<Event>, e: Event, starts: seq<nat>, frames: seq<Frame>)
    requires Tracks(es, starts, frames) && AllOpen(es, starts) && !Opens(e) && (Closes(e) ==> frames == [])
    ensures Tracks(es + [e], starts, Marked(frames, e)) && AllOpen(es + [e], starts)
  {
    hide StillOpen, Opens, Closes, Protected, CarriesToken, Height;
    HeightAppend(es, e);
    Prefixes(es, e);
    forall p | 0 <= p < |starts|
      ensures FrameFor(es + [e], p, starts[p], Marked(frames, e)[p])
    {
      assert FrameFor(es, p, starts[p], frames[p]);
      FrameOther(es, e, p, starts[p], frames[p]);
    }
    forall i: nat | StillOpen(es + [e], i)
      ensures i in starts
    {
      StillOpenAppend(es, e, i);
    }
  }

  lemma FrameOther(es: seq<Event>, e: Event, p: nat, i: nat, f: Frame)
    requires FrameFor(es, p, i, f) && Height(es + [e]) == Height(es)
    ensures FrameFor(es + [e], p, i, if CarriesToken(e) && p == Height(es) - 1 then f.(seen := true) else f)
  {
    hide StillOpen, Opens, Closes, Protected, CarriesToken, Height;
    OpenIsEarlier(es, i);
    StillOpenAppend(es, e, i);
    ProtectedAppend(es, e, i);
    assert (es + [e])[..i] == es[..i] && (es + [e])[i] == es[i];
  }

  /** A form that is off the stack is settled: later events cannot protect it. */
  lemma FormReportedAppend(es: seq<Event>, e: Event, starts: seq<nat>, popped: seq<nat>, id: Identity)
    requires AllOpen(es, starts) && OnceEach(es, starts, popped)
    ensures FormReported(es + [e], popped, id) <==> FormReported(es, popped, id)
  {
    hide StillOpen, Opens, CarriesToken;
    forall i | i in popped
      ensures Unprotected(es + [e], i, id) <==> Unprotected(es, i, id)
    {
      ProtectedAppend(es, e, i);
    }
  }

  lemma AccountsAppend(es: seq<Event>, e: Event, starts: seq<nat>, popped: seq<nat>,
                       reported: set<Identity>, more: set<Identity>)
    requires AllOpen(es, starts) && OnceEach(es, starts, popped) && Accounts(es, popped, reported)
    requires forall id :: id in more <==> id in Direct(es, e)
    ensures Accounts(es + [e], popped, reported + more)
  {
    hide AllOpen, OnceEach, Direct, DirectlyReported, FormReported;
    forall id
      ensures id in reported + more <==> DirectlyReported(es + [e], id) || FormReported(es + [e], popped, id)
    {
      DirectAppend(es, e, id);
      FormReportedAppend(es, e, starts, popped, id);
    }
  }

  lemma AccountsPop(es: seq<Event>, popped: seq<nat>, reported: set<Identity>, i: nat, more: set<Identity>)
    requires Accounts(es, popped, reported) && i < |es| && Opens(es[i])
    requires more == if Protected(es, i) then {} else {CsrfIdentity(es[i].line)}
    ensures Accounts(es, popped + [i], reported + more)
  {
    hide DirectlyReported, Opens, Protected, CsrfIdentity;
    forall id
      ensures FormReported(es, popped + [i], id) <==> FormReported(es, popped, id) || id in more
    {
      assert i in popped + [i];
      assert forall j | j in popped :: j in popped + [i];
    }
  }

  lemma OnceEachAppend(es: seq<Event>, e: Event, starts: seq<nat>, popped: seq<nat>)
    requires OnceEach(es, starts, popped) && forall i | i in starts :: i < |es|
    ensures OnceEach(es + [e], if Opens(e) then starts + [|es|] else starts, popped)
  {
    hide Opens;
    forall i: nat
      ensures i in popped <==>
              i < |es + [e]| && Opens((es + [e])[i]) && i !in (if Opens(e) then starts + [|es|] else starts)
    {
      if i < |es| {
        assert (es + [e])[i] == es[i];
      }
    }
  }

  lemma OnceEachPop(es: seq<Event>, starts: seq<nat>, popped: seq<nat>)
    requires OnceEach(es, starts, popped) && starts != []
    requires var i := starts[|starts| - 1]; i < |es| && Opens(es[i]) && i !in starts[..|starts| - 1]
    ensures OnceEach(es, starts[..|starts| - 1], popped + [starts[|starts| - 1]])
  {
    hide Opens;
    var front, last := starts[..|starts| - 1], starts[|starts| - 1];
    assert starts == front + [last];
    assert forall i :: i in popped + [last] <==> i in popped || i == last;
  }

  lemma ListsEmit(findings: seq<Finding>, reported: set<Identity>, id: Identity)
    requires Lists(findings, reported) && id !in reported
    ensures Lists(findings + [FindingOf(id)], reported + {id})
  {
    forall f
      ensures f in findings + [FindingOf(id)] <==> exists x :: x in reported + {id} && f == FindingOf(x)
    {
      if f in findings {
        var x :| x in reported && f == FindingOf(x);
        assert x in reported + {id};
      }
      assert id in reported + {id};
    }
  }

  ghost predicate Keeps(es: seq<Event>, starts: seq<nat>, popped: seq<nat>, frames: seq<Frame>,
                        reported: set<Identity>) {
    Tracks(es, starts, frames) && AllOpen(es, starts) && OnceEach(es, starts, popped) && Accounts(es, popped, reported)
  }

  lemma StartsAreEarlier(es: seq<Event>, starts: seq<nat>, frames: seq<Frame>)
    requires Tracks(es, starts, frames)
    ensures forall i | i in starts :: i < |es|
    ensures forall p, q | 0 <= p < q < |starts| :: starts[p] != starts[q]
  {
    hide StaysAbove, Opens, Protected, Height;
    assert forall p | 0 <= p < |starts| :: FrameFor(es, p, starts[p], frames[p]);
  }

  lemma KeepsPush(es: seq<Event>, e: Event, starts: seq<nat>, popped: seq<nat>, frames: seq<Frame>,
                  reported: set<Identity>, more: set<Identity>)
    requires Keeps(es, starts, popped, frames, reported) && Opens(e)
    requires forall id :: id in more <==> id in Direct(es, e)
    ensures Keeps(es + [e], starts + [|es|], popped, frames + [Frame(e.line, false)], reported + more)
  {
    hide Tracks, AllOpen, OnceEach, Accounts, Direct, Opens;
    TracksPush(es, e, starts, frames);
    StartsAreEarlier(es, starts, frames);
    OnceEachAppend(es, e, starts, popped);
    AccountsAppend(es, e, starts, popped, reported, more);
  }

  lemma KeepsOther(es: seq<Event>, e: Event, starts: seq<nat>, popped: seq<nat>, frames: seq<Frame>,
                   reported: set<Identity>, more: set<Identity>)
    requires Keeps(es, starts, popped, frames, reported) && !Opens(e) && (Closes(e) ==> frames == [])
    requires forall id :: id in more <==> id in Direct(es, e)
    ensures Keeps(es + [e], starts, popped, Marked(frames, e), reported + more)
  {
    hide Tracks, AllOpen, OnceEach, Accounts, Direct, Opens, Closes, Marked;
    TracksOther(es, e, starts, frames);
    StartsAreEarlier(es, starts, frames);
    OnceEachAppend(es, e, starts, popped);
    AccountsAppend(es, e, starts, popped, reported, more);
  }

  lemma KeepsPop(es: seq<Event>, e: Event, starts: seq<nat>, popped: seq<nat>, frames: seq<Frame>,
                 reported: set<Identity>, more: set<Identity>)
    requires Keeps(es, starts, popped, frames, reported) && Closes(e) && frames != [] && |starts| == |frames|
    requires more == if frames[|frames| - 1].seen then {} else {CsrfIdentity(frames[|frames| - 1].line)}
    ensures var n := |frames| - 1;
      Keeps(es + [e], starts[..n], popped + [starts[n]], frames[..n], reported + more)
  {
    hide Tracks, AllOpen, OnceEach, Accounts, Opens, CsrfIdentity, Protected;
    var i := starts[|starts| - 1];
    TracksPop(es, e, starts, frames);
    StartsAreEarlier(es, starts, frames);
    OpensOnly(e);
    OnceEachAppend(es, e, starts, popped);
    AccountsAppend(es, e, starts, popped, reported, {});
    assert reported + {} == reported;
    assert (es + [e])[i] == es[i];
    OnceEachPop(es + [e], starts, popped);
    AccountsPop(es + [e], popped, reported, i, more);
  }

  /** Flushing one frame at the end of the input. */
  lemma Flush(es: seq<Event>, starts: seq<nat>, popped: seq<nat>, frames: seq<Frame>,
              reported: set<Identity>, more: set<Identity>)
    requires Tracks(es, starts, frames) && OnceEach(es, starts, popped) && Accounts(es, popped, reported)
    requires frames != [] && |starts| == |frames|
    requires more == if frames[|frames| - 1].seen then {} else {CsrfIdentity(frames[|frames| - 1].line)}
    ensures var n := |frames| - 1;
      && Tracks(es, starts[..n], frames[..n])
      && OnceEach(es, starts[..n], popped + [starts[n]])
      && Accounts(es, popped + [starts[n]], reported + more)
  {
    hide OnceEach, Accounts, Opens, CsrfIdentity, Protected, StaysAbove, Height;
    var n := |starts| - 1;
    StartsAreEarlier(es, starts, frames);
    assert FrameFor(es, n, starts[n], frames[n]);
    OnceEachPop(es, starts, popped);
    AccountsPop(es, popped, reported, starts[n], more);
    assert forall p | 0 <= p < n :: FrameFor(es, p, starts[..n][p], frames[..n][p]) by {
      assert forall p | 0 <= p < n :: FrameFor(es, p, starts[p], frames[p]);
    }
  }

  lemma DepthAppend(es: seq<Event>, e: Event)
    ensures Depth(es + [e]) == if Depth(es) + Swing(e) < 0 then 0 else Depth(es) + Swing(e)
  {
    assert (es + [e])[..|es|] == es;
  }

  lemma DirectIsNotCsrf(es: seq<Event>, line: int)
    ensures !DirectlyReported(es, CsrfIdentity(line))
  {
  }

  // ---------------------------------------------------------------- the auditor

  class TemplateSecurityAuditor {
    var findings: seq<Finding>
    var formFrames: seq<Frame>
    var verbatimDepth: int
    var reported: set<Identity>
    /** The events handled, the start of each frame's form, and the starts of the popped frames. */
    ghost var events: seq<Event>
    ghost var starts: seq<nat>
    ghost var popped: seq<nat>

    ghost predicate Valid()
      reads this
    {
      && verbatimDepth == Depth(events)
      && |starts| == |formFrames|
      && Keeps(events, starts, popped, formFrames, reported)
      && Lists(findings, reported)
    }

    constructor ()
      ensures Valid() && events == []
    {
      findings, formFrames, verbatimDepth, reported := [], [], 0, {};
      events, starts, popped := [], [], [];
    }

    /** `_emit` */
    method Emit(id: Identity)
      requires Lists(findings, reported)
      modifies this`findings, this`reported
      ensures Lists(findings, reported) && reported == old(reported) + {id}
      ensures old(findings) <= findings
    {
      hide Lists;
      if id in reported {
        return;
      }
      ListsEmit(findings, reported, id);
      reported := reported + {id};
      findings := findings + [FindingOf(id)];
    }

    method EmitAll(ids: seq<Identity>)
      requires Lists(findings, reported)
      modifies this`findings, this`reported
      ensures Lists(findings, reported) && forall id :: id in reported <==> id in old(reported) || id in ids
    {
      hide Lists;
      for k := 0 to |ids|
        invariant Lists(findings, reported)
        invariant forall id :: id in reported <==> id in old(reported) || id in ids[..k]
      {
        Emit(ids[k]);
        assert ids[..k + 1] == ids[..k] + [ids[k]];
      }
      assert ids[..|ids|] == ids;
    }

    method CheckSubresourceIntegrity(line: int, attrs: seq<Attr>, urlAttr: string)
      requires Lists(findings, reported)
      modifies this`findings, this`reported
      ensures Lists(findings, reported)
      ensures forall id :: id in reported <==> id in old(reported) || id in SubresourceFinding(line, attrs, urlAttr)
    {
      hide Lists, IsExternal, Trim, AttrOf;
      if LacksIntegrity(attrs, urlAttr) {
        Emit(Identity(line, "CWE-353", "MISSING_SUBRESOURCE_INTEGRITY"));
      }
    }

    /** `handle_starttag` and `handle_startendtag` */
    method HandleStartTag(e: Event)
      requires Valid() && e.StartTag?
      modifies this
      ensures Valid() && events == old(events) + [e]
    {
      hide Keeps, Lists, Depth, Trim, AttrOf, Contains, SubresourceFinding;
      var lowered := Lower(e.tag);
      if lowered in VERBATIM_TAGS && !e.selfClosing {
        verbatimDepth := verbatimDepth + 1;
      }
      if lowered == "script" {
        CheckSubresourceIntegrity(e.line, e.attrs, "src");
      } else if lowered == "link" {
        if Contains(Lower(AttrOf(e.attrs, "rel")), "stylesheet") {
          CheckSubresourceIntegrity(e.line, e.attrs, "href");
        }
      } else if lowered == "form" {
        if Lower(Trim(AttrOf(e.attrs, "method"))) in STATE_CHANGING_FORM_METHODS {
          formFrames := formFrames + [Frame(e.line, false)];
          starts := starts + [|events|];
        }
      }
      if formFrames != [] && lowered in {"input", "button"} {
        if Lower(Trim(AttrOf(e.attrs, "name"))) in CSRF_TOKEN_MARKERS {
          formFrames := formFrames[|formFrames| - 1 := formFrames[|formFrames| - 1].(seen := true)];
        }
      }
      DepthAppend(events, e);
      ghost var more := set id | id in Direct(events, e);
      assert reported == old(reported) + more;
      if Opens(e) {
        KeepsPush(events, e, old(starts), popped, old(formFrames), old(reported), more);
      } else {
        KeepsOther(events, e, old(starts), popped, old(formFrames), old(reported), more);
      }
      events := events + [e];
    }

    /** `handle_data`, with `_check_csrf_token` and `_check_unescaped_output` */
    method HandleData(e: Event)
      requires Valid() && e.Data?
      modifies this
      ensures Valid() && events == old(events) + [e]
    {
      hide Keeps, Lists, Depth, Contains;
      EmptyHasNoMarker();
      if e.text != "" {
        if formFrames != [] {
          if exists marker | marker in CSRF_TOKEN_MARKERS :: Contains(Lower(e.text), marker) {
            formFrames := formFrames[|formFrames| - 1 := formFrames[|formFrames| - 1].(seen := true)];
          }
        }
        if verbatimDepth == 0 {
          EmitAll(UnsafeOutputs(e.line, e.unsafeOffsets));
        }
      }
      DepthAppend(events, e);
      ghost var more := set id | id in Direct(events, e);
      assert reported == old(reported) + more;
      KeepsOther(events, e, starts, popped, old(formFrames), old(reported), more);
      events := events + [e];
    }

    /** `handle_endtag` */
    method HandleEndTag(e: Event)
      requires Valid() && e.EndTag?
      modifies this
      ensures Valid() && events == old(events) + [e]
      ensures |formFrames| == if Closes(e) && old(|formFrames|) > 0 then old(|formFrames|) - 1 else old(|formFrames|)
    {
      hide Keeps, Lists, Depth, CsrfIdentity;
      var lowered := Lower(e.endTag);
      if lowered in VERBATIM_TAGS {
        verbatimDepth := if verbatimDepth - 1 < 0 then 0 else verbatimDepth - 1;
      }
      DepthAppend(events, e);
      if lowered != "form" || formFrames == [] {
        assert reported == old(reported) + {};
        KeepsOther(events, e, starts, popped, formFrames, reported, {});
        events := events + [e];
        return;
      }
      var n := |formFrames| - 1;
      var frame := formFrames[n];
      ghost var more := if frame.seen then {} else {CsrfIdentity(frame.line)};
      KeepsPop(events, e, starts, popped, formFrames, reported, more);
      formFrames := formFrames[..n];
      popped, starts := popped + [starts[n]], starts[..n];
      events := events + [e];
      if frame.seen {
        assert reported + {} == reported;
        return;
      }
      Emit(CsrfIdentity(frame.line));
    }

    /** `close`: the forms left open are settled too, so every form start was popped exactly once. */
    method Close()
      requires Valid()
      modifies this
      ensures events == old(events) && formFrames == [] && verbatimDepth >= 0
      ensures OnceEach(events, [], popped)
      ensures Accounts(events, popped, reported) && Lists(findings, reported)
    {
      hide Tracks, OnceEach, Accounts, AllOpen, Lists, CsrfIdentity;
      while formFrames != []
        invariant events == old(events) && verbatimDepth >= 0 && |starts| == |formFrames|
        invariant Tracks(events, starts, formFrames) && OnceEach(events, starts, popped)
        invariant Accounts(events, popped, reported) && Lists(findings, reported)
        decreases |formFrames|
      {
        var n := |formFrames| - 1;
        var frame := formFrames[n];
        ghost var more := if frame.seen then {} else {CsrfIdentity(frame.line)};
        Flush(events, starts, popped, formFrames, reported, more);
        formFrames := formFrames[..n];
        popped, starts := popped + [starts[n]], starts[..n];
        if frame.seen {
          assert reported + {} == reported;
          continue;
        }
        Emit(CsrfIdentity(frame.line));
      }
      assert starts == [];
    }
  }

  lemma EmptyHasNoMarker()
    ensures !CarriesToken(Data(0, "", []))
    ensures forall line, offsets :: !CarriesToken(Data(line, "", offsets))
  {
    assert forall marker | marker in CSRF_TOKEN_MARKERS :: !Contains("", marker);
  }

  /** The identities that a stream of events reports: what single events report, and the start lines of
      the forms that saw no token event while they were the innermost open form. */
  ghost predicate IsReported(es: seq<Event>, id: Identity) {
    DirectlyReported(es, id) || exists i: nat :: Unprotected(es, i, id)
  }

  /** The attribute's value is this one: of several with one name the last counts, and none given is empty. */
  ghost predicate HasAttr(attrs: seq<Attr>, key: string, v: string) {
    exists k: nat ::
      && k < |attrs| && attrs[k].key.Some? && Lower(attrs[k].key.value) == key
      && v == (if attrs[k].value.Some? then attrs[k].value.value else "")
      && forall l | k < l < |attrs| :: attrs[l].key.Some? ==> Lower(attrs[l].key.value) != key
  }

  lemma {:induction false} AttrOfIs(attrs: seq<Attr>, key: string)
    ensures AttrOf(attrs, key) != "" ==> HasAttr(attrs, key, AttrOf(attrs, key))
    ensures forall v | HasAttr(attrs, key, v) :: AttrOf(attrs, key) == v
    decreases |attrs|
  {
    hide Lower;
    if attrs != [] {
      var n := |attrs| - 1;
      AttrOfIs(attrs[..n], key);
      if !(attrs[n].key.Some? && Lower(attrs[n].key.value) == key) {
        forall v
          ensures HasAttr(attrs, key, v) <==> HasAttr(attrs[..n], key, v)
        {
        }
      }
    }
  }

  /** The attribute names a resource of another host, and there is no integrity attribute that is not blank. */
  ghost predicate LoadsUnchecked(attrs: seq<Attr>, urlAttr: string) {
    && (exists url ::
          && HasAttr(attrs, urlAttr, url)
          && ("http://" <= Trim(url) || "https://" <= Trim(url) || "//" <= Trim(url)))
    && forall v | HasAttr(attrs, "integrity", v) :: Trim(v) == ""
  }

  lemma TrimOfNothing()
    ensures Trim("") == ""
  {
  }

  lemma LacksIntegrityIff(attrs: seq<Attr>, urlAttr: string)
    ensures LacksIntegrity(attrs, urlAttr) <==> LoadsUnchecked(attrs, urlAttr)
  {
    hide HasAttr, AttrOf, Trim;
    AttrOfIs(attrs, urlAttr);
    AttrOfIs(attrs, "integrity");
    TrimOfNothing();
  }

  /** The CWE-353 identities are exactly the lines of script tags, and of links to style sheets, that load from another
      host without an integrity attribute. */
  lemma IntegrityLines(es: seq<Event>, line: int)
    ensures IsReported(es, Identity(line, "CWE-353", "MISSING_SUBRESOURCE_INTEGRITY")) <==>
            exists k: nat ::
              && k < |es| && es[k].StartTag? && es[k].line == line
              && ((Lower(es[k].tag) == "script" && LoadsUnchecked(es[k].attrs, "src"))
                  || (Lower(es[k].tag) == "link" && Contains(Lower(AttrOf(es[k].attrs, "rel")), "stylesheet")
                      && LoadsUnchecked(es[k].attrs, "href")))
  {
    hide LacksIntegrity, LoadsUnchecked, Lower, Contains, AttrOf, Opens, Protected, Depth;
    forall attrs, urlAttr
      ensures LacksIntegrity(attrs, urlAttr) <==> LoadsUnchecked(attrs, urlAttr)
    {
      LacksIntegrityIff(attrs, urlAttr);
    }
    var id := Identity(line, "CWE-353", "MISSING_SUBRESOURCE_INTEGRITY");
    forall k | 0 <= k < |es|
      ensures id in Direct(es[..k], es[k]) <==>
              && es[k].StartTag? && es[k].line == line
              && ((Lower(es[k].tag) == "script" && LacksIntegrity(es[k].attrs, "src"))
                  || (Lower(es[k].tag) == "link" && Contains(Lower(AttrOf(es[k].attrs, "rel")), "stylesheet")
                      && LacksIntegrity(es[k].attrs, "href")))
    {
    }
  }

  /** `audit_template` on any stream of events: exactly one finding per reported identity. */
  method AuditTemplate(events: seq<Event>) returns (findings: seq<Finding>)
    ensures forall f :: f in findings <==> exists id ::
      IsReported(events, id) && f.cwe == id.cwe && f.category == id.category && f.line == if id.line < 1 then 1
          else id.line
    ensures exists reported :: Lists(findings, reported) && forall id :: id in reported <==> IsReported(events, id)
  {
    hide Keeps, Lists, Depth, IsReported;
    var auditor := new TemplateSecurityAuditor();
    for k := 0 to |events|
      invariant fresh(auditor) && auditor.Valid() && auditor.events == events[..k]
    {
      match events[k]
      case StartTag(_, _, _, _) => auditor.HandleStartTag(events[k]);
      case Data(_, _, _) => auditor.HandleData(events[k]);
      case EndTag(_) => auditor.HandleEndTag(events[k]);
      assert events[..k + 1] == events[..k] + [events[k]];
    }
    assert events[..|events|] == events;
    auditor.Close();
    findings := auditor.findings;
    ReportedForms(events, auditor.popped, auditor.reported);
    ListsMeans(findings, auditor.reported);
  }

  lemma ListsMeans(findings: seq<Finding>, reported: set<Identity>)
    requires Lists(findings, reported)
    ensures forall f :: f in findings <==> exists id :: id in reported && f == FindingOf(id)
  {
  }

  lemma ReportedForms(es: seq<Event>, popped: seq<nat>, reported: set<Identity>)
    requires OnceEach(es, [], popped) && Accounts(es, popped, reported)
    ensures forall id :: id in reported <==> IsReported(es, id)
  {
    hide DirectlyReported, Opens, Protected, CsrfIdentity;
    forall id
      ensures FormReported(es, popped, id) <==> exists i: nat :: Unprotected(es, i, id)
    {
      if i: nat :| Unprotected(es, i, id) {
        assert i in popped;
      }
    }
  }

  /** So the CWE-352 identities are exactly the start lines of the unprotected forms. */
  lemma ReportedLines(es: seq<Event>, line: int)
    ensures IsReported(es, CsrfIdentity(line)) <==>
            exists i: nat :: i < |es| && Opens(es[i]) && es[i].line == line && !Protected(es, i)
  {
    hide DirectlyReported, Protected;
    DirectIsNotCsrf(es, line);
    if i: nat :| i < |es| && Opens(es[i]) && es[i].line == line && !Protected(es, i) {
      assert Unprotected(es, i, CsrfIdentity(line));
    }
  }
}
