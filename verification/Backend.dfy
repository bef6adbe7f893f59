/** What a server says, message by message, and what a response makes of it. */
module Backend {
  import opened Wrappers
  import opened Wire
  import opened Framing
  import opened Parser
  import opened Response
  import Receiving

  // ---- reports ----

  /** The fields of an error or notice report: a letter and a text each. */
  type Items = seq<(byte, bytes)>

  function WriteItems(items: Items): bytes {
    if items == [] then [0] else [items[0].0] + items[0].1 + [0] + WriteItems(items[1..])
  }

  /** A severity is never empty. */
  predicate ItemFits(item: (byte, bytes)) {
    item.0 != 0 && NulFree(item.1) && (item.0 == 'S' as int || item.0 == 'V' as int ==> item.1 != [])
  }

  predicate ItemsFit(items: Items) {
    forall k | 0 <= k < |items| :: ItemFits(items[k])
  }

  /** The last text under a letter. */
  function Latest(items: Items, letter: byte, before: bytes): bytes
    decreases |items|
  {
    if items == [] then before
    else Latest(items[1..], letter, if items[0].0 == letter then items[0].1 else before)
  }

  /** The first text under a letter, or nothing. */
  function Earliest(items: Items, letter: byte): bytes {
    if items == [] then [] else if items[0].0 == letter then items[0].1 else Earliest(items[1..], letter)
  }

  /** The localized severity, and only without one the other. */
  function SeverityOf(items: Items, before: bytes): bytes {
    var localized := Latest(items, 'S' as int, []);
    if localized != [] then localized else if before != [] then before else Earliest(items, 'V' as int)
  }

  function Reported(items: Items, before: ErrorInfo): ErrorInfo {
    ErrorInfo(
      SeverityOf(items, before.severity),
      Latest(items, 'C' as int, before.sqlState),
      Latest(items, 'M' as int, before.message),
      Latest(items, 'D' as int, before.detail),
      Latest(items, 'H' as int, before.hint),
      Latest(items, 'P' as int, before.position))
  }

  lemma {:induction false} LatestBefore(items: Items, letter: byte, before: bytes)
    requires forall k | 0 <= k < |items| :: items[k].0 == letter ==> items[k].1 != []
    ensures Latest(items, letter, before)
         == if Latest(items, letter, []) == [] then before else Latest(items, letter, [])
    decreases |items|
  {
    if items != [] {
      LatestBefore(items[1..], letter, before);
      if items[0].0 == letter {
        LatestBefore(items[1..], letter, items[0].1);
      }
    }
  }

  lemma ReportedStep(items: Items, e: ErrorInfo)
    requires items != [] && ItemsFit(items)
    ensures Reported(items, e) == Reported(items[1..], SetErrorField(e, items[0].0, items[0].1))
  {
    LatestBefore(items[1..], 'S' as int, items[0].1);
  }

  /** A report is read as it was written. */
  lemma {:induction false} ReportIsRead(data: bytes, p: nat, items: Items, after: bytes, e: ErrorInfo)
    requires p <= |data| && data[p..] == WriteItems(items) + after && ItemsFit(items)
    ensures ErrorFields(data, p, e) == Reported(items, e)
    decreases |items|
  {
    if items == [] {
      assert data[p] == 0;
    } else {
      var next := NextItem(data, p, items, after, e);
      ReportIsRead(data, next, items[1..], after, SetErrorField(e, items[0].0, items[0].1));
      ReportedStep(items, e);
    }
  }

  lemma NextItem(data: bytes, p: nat, items: Items, after: bytes, e: ErrorInfo) returns (next: nat)
    requires p <= |data| && data[p..] == WriteItems(items) + after && items != [] && ItemFits(items[0])
    ensures next <= |data| && data[next..] == WriteItems(items[1..]) + after
    ensures ErrorFields(data, p, e) == ErrorFields(data, next, SetErrorField(e, items[0].0, items[0].1))
  {
    var letter, text, rest := items[0].0, items[0].1, WriteItems(items[1..]) + after;
    ItemsApart(items, after);
    assert data[p..][0] == letter && data[p + 1..] == data[p..][1..] == text + [0] + rest;
    StringAt(data, p + 1, text, rest);
    next := p + 1 + |text| + 1;
    ItemStep(data, p, e, text, next);
  }

  lemma ItemsApart(items: Items, after: bytes)
    requires items != []
    ensures WriteItems(items) + after == [items[0].0] + (items[0].1 + [0] + (WriteItems(items[1..]) + after))
  {
  }

  lemma ItemStep(data: bytes, p: nat, e: ErrorInfo, text: bytes, next: nat)
    requires p < |data| && data[p] != 0 && ReadCString(data, p + 1) == CString(text, next)
    ensures ErrorFields(data, p, e) == ErrorFields(data, next, SetErrorField(e, data[p], text))
  {
  }

  // ---- messages ----

  datatype Said =
    | Authenticates(request: bytes)
    | Errs(items: Items)
    | Warns(items: Items)
    | Sets(name: bytes, value: bytes)
    | Identifies(pid: int, secret: bytes)
    | Negotiates(version: nat, options: seq<bytes>)
    | IsReady(state: byte)
    | Notifies(n: Notify)
    | BeginsCopyIn(header: bytes)
    | BeginsCopyOut(header: bytes)
    | BeginsCopyBoth(header: bytes)
    | Other(kind: byte, payload: bytes)

  function WriteTexts(texts: seq<bytes>): bytes {
    if texts == [] then [] else texts[0] + [0] + WriteTexts(texts[1..])
  }

  /** The message with its type byte, as the protocol documentation has it. */
  function Say(m: Said): Frame {
    match m
    case Authenticates(request) => Frame('R' as int, request)
    case Errs(items) => Frame('E' as int, WriteItems(items))
    case Warns(items) => Frame('N' as int, WriteItems(items))
    case Sets(name, value) => Frame('S' as int, name + [0] + value + [0])
    case Identifies(pid, secret) => Frame('K' as int, WriteU32(pid) + secret)
    case Negotiates(version, options) =>
      Frame('v' as int, WriteU32(version) + WriteU32(|options|) + WriteTexts(options))
    case IsReady(state) => Frame('Z' as int, [state])
    case Notifies(n) => Frame('A' as int, WriteU32(n.pid) + (n.channel + [0] + n.payload + [0]))
    case BeginsCopyIn(header) => Frame('G' as int, header)
    case BeginsCopyOut(header) => Frame('H' as int, header)
    case BeginsCopyBoth(header) => Frame('W' as int, header)
    case Other(kind, payload) => Frame(kind, payload)
  }

  predicate TextsFit(texts: seq<bytes>) {
    forall k | 0 <= k < |texts| :: NulFree(texts[k])
  }

  predicate Sayable(m: Said) {
    match m
    case Errs(items) => ItemsFit(items)
    case Warns(items) => ItemsFit(items)
    case Sets(name, value) => NulFree(name) && NulFree(value)
    case Identifies(pid, secret) => -TWO_31 <= pid < TWO_31 && |secret| >= 4
    case Negotiates(version, options) => version < TWO_32 && |options| < TWO_32 && TextsFit(options)
    case Notifies(n) => n.pid < TWO_32 && NulFree(n.channel) && NulFree(n.payload)
    case Other(kind, _) => kind !in Text("RENSKvZAGHW")
    case _ => true
  }

  /** What a response knows after the message. */
  function Hears(auth: AuthOracle, r: Reply, m: Said): Reply {
    match m
    case Authenticates(request) =>
      var r := r.(authSeen := r.authSeen + [request]);
      (match auth(r.authSeen)
       case Proceed(None) => r
       case Proceed(Some(feedback)) => r.(sent := r.sent + [feedback])
       case Reject(message, None) => Refused(r, message)
       case Reject(message, Some(code)) => Refused(r, message).(internalError := code))
    case Errs(items) => r.(isError := true, error := Reported(items, r.error))
    case Warns(items) => r.(notices := r.notices + [Reported(items, ErrorInfo([], [], [], [], [], []))])
    case Sets(name, value) => r.(parameters := r.parameters[name := value])
    case Identifies(pid, secret) =>
      if |secret| < 4 then r else r.(backendKey := BackendKeyData(pid, Signed32(ReadU32(secret, 0)), secret))
    case Negotiates(version, options) => r.(version := version, options := r.options + options)
    case IsReady(state) => r.(tx := state, ready := state in Text("ITE"))
    case Notifies(n) => r.(notifications := r.notifications + [n])
    case BeginsCopyIn(_) => r.(copyIn := true)
    case BeginsCopyOut(_) => r.(copyOut := true)
    case BeginsCopyBoth(_) => r.(copyOut := true)
    case Other(_, _) => r
  }

  function Refused(r: Reply, message: bytes): Reply {
    r.(isError := true, error := r.error.(severity := Text("FATAL"), message := message))
  }

  /** Whether the response ends with the message. */
  predicate Ends(auth: AuthOracle, r: Reply, m: Said) {
    match m
    case Authenticates(request) => auth(r.authSeen + [request]).Reject?
    case Errs(_) => r.isStartup
    case Notifies(_) => r.notifyMode
    case IsReady(_) => true
    case BeginsCopyIn(_) => true
    case _ => false
  }

  // ---- each message is heard as it was said ----

  lemma SettingIsRead(name: bytes, value: bytes, parameters: map<bytes, bytes>)
    requires NulFree(name) && NulFree(value)
    ensures ParameterStatusOf(name + [0] + value + [0], parameters) == parameters[name := value]
  {
    var s := name + [0] + value + [0];
    assert s[0..] == name + [0] + value + [0] + [];
    TwoStringsAt(s, 0, name, value, []);
  }

  lemma KeyIsRead(pid: int, secret: bytes, before: BackendKeyData)
    requires -TWO_31 <= pid < TWO_31 && |secret| >= 4
    ensures BackendKeyOf(WriteU32(pid) + secret, before) == BackendKeyData(pid, Signed32(ReadU32(secret, 0)), secret)
  {
    var s := WriteU32(pid) + secret;
    assert s[0..] == s;
    Signed32At(s, 0, pid, secret);
    BigEndian(s, 4);
    BigEndian(secret, 0);
  }

  lemma NotificationIsRead(n: Notify)
    requires n.pid < TWO_32 && NulFree(n.channel) && NulFree(n.payload)
    ensures NotificationOf(WriteU32(n.pid) + (n.channel + [0] + n.payload + [0])) == Some(n)
  {
    var rest := n.channel + [0] + n.payload + [0];
    var s := WriteU32(n.pid) + rest;
    assert s[0..] == s;
    U32At(s, 0, n.pid, rest);
    assert s[4..] == rest + [];
    TwoStringsAt(s, 4, n.channel, n.payload, []);
  }

  /** As many as there are, but no more than `n`. */
  function Front(options: seq<bytes>, n: nat): seq<bytes> {
    if n <= |options| then options[..n] else options
  }

  predicate Offers(data: bytes, p: nat, options: seq<bytes>, n: nat)
    requires p <= |data|
  {
    Options(data, p, n) == Front(options, n)
  }

  lemma OptionStep(data: bytes, p: nat, options: seq<bytes>, n: nat, next: nat)
    requires n > 0 && p < |data| && options != [] && ReadCString(data, p) == CString(options[0], next)
    ensures Offers(data, next, options[1..], n - 1) ==> Offers(data, p, options, n)
  {
    assert [options[0]] + Front(options[1..], n - 1) == Front(options, n);
  }

  lemma NextOption(data: bytes, p: nat, options: seq<bytes>, n: nat) returns (next: nat)
    requires p <= |data| && data[p..] == WriteTexts(options) && options != [] && NulFree(options[0]) && n > 0
    ensures next <= |data| && data[next..] == WriteTexts(options[1..])
    ensures Offers(data, next, options[1..], n - 1) ==> Offers(data, p, options, n)
  {
    StringAt(data, p, options[0], WriteTexts(options[1..]));
    next := p + |options[0]| + 1;
    OptionStep(data, p, options, n, next);
  }

  /** A count that says less than is there, or more: as many options as both allow. */
  lemma {:induction false} OptionsUpToCount(data: bytes, p: nat, options: seq<bytes>, n: nat)
    requires p <= |data| && data[p..] == WriteTexts(options) && TextsFit(options)
    ensures Offers(data, p, options, n)
    decreases |options|
  {
    if options != [] && n > 0 {
      var next := NextOption(data, p, options, n);
      OptionsUpToCount(data, next, options[1..], n - 1);
    }
  }

  lemma NegotiationIsRead(version: nat, options: seq<bytes>)
    requires version < TWO_32 && |options| < TWO_32 && TextsFit(options)
    ensures var s := WriteU32(version) + WriteU32(|options|) + WriteTexts(options);
            && |s| >= 8 && ReadU32(s, 0) == version && ReadU32(s, 4) == |options|
            && Options(s, 8, |options|) == options
  {
    var v, n, texts := WriteU32(version), WriteU32(|options|), WriteTexts(options);
    var s := v + n + texts;
    assert s == [] + v + (n + texts);
    ReadWriteFitting([], version, n + texts);
    ReadWriteFitting(v, |options|, texts);
    assert s[8..] == texts;
    OptionsUpToCount(s, 8, options, |options|);
    assert options[..|options|] == options;
  }

  lemma OtherKinds(kind: byte)
    requires kind !in Text("RENSKvZAGHW")
    ensures var event := EventOf(kind);
            && !event.Auth? && !event.Error? && !event.Notice? && !event.ParameterStatus? && !event.BackendKey?
            && !event.NegotiateProtocol? && !event.Ready? && !event.Notification? && !event.CopyIn? && !event.CopyOut?
  {
    var kinds := Text("RENSKvZAGHW");
    assert forall k | 0 <= k < |kinds| :: kinds[k] != kind;
    assert |kinds| == 11;
    assert kinds[0] == 'R' as int && kinds[1] == 'E' as int && kinds[2] == 'N' as int && kinds[3] == 'S' as int;
    assert kinds[4] == 'K' as int && kinds[5] == 'v' as int && kinds[6] == 'Z' as int && kinds[7] == 'A' as int;
    assert kinds[8] == 'G' as int && kinds[9] == 'H' as int && kinds[10] == 'W' as int;
  }

  lemma StateLetters(state: byte)
    ensures state in Text("ITE") <==> state == 'I' as int || state == 'T' as int || state == 'E' as int
  {
    var states := Text("ITE");
    assert |states| == 3 && states[0] == 'I' as int && states[1] == 'T' as int && states[2] == 'E' as int;
  }

  /** Every message a server can send is heard as it was said. */
  lemma SaidIsHeard(auth: AuthOracle, r: Reply, m: Said)
    requires Sayable(m)
    ensures StepOf(auth)(r, Say(m)) == (Hears(auth, r, m), Ends(auth, r, m))
  {
    var f := Say(m);
    assert StepOf(auth)(r, f) == Apply(auth, r, EventOf(f.kind), f.payload);
    if m.Other? {
      OtherKinds(f.kind);
    } else {
      PayloadIsHeard(auth, r, m);
    }
  }

  lemma PayloadIsHeard(auth: AuthOracle, r: Reply, m: Said)
    requires Sayable(m) && !m.Other?
    ensures Apply(auth, r, EventOf(Say(m).kind), Say(m).payload) == (Hears(auth, r, m), Ends(auth, r, m))
  {
    if m.Errs? || m.Warns? {
      ReportIsHeard(auth, r, m);
    } else if m.Sets? {
      SettingIsHeard(auth, r, m);
    } else if m.Identifies? {
      KeyIsHeard(auth, r, m);
    } else if m.Negotiates? {
      NegotiationIsHeard(auth, r, m);
    } else if m.Notifies? {
      NotificationIsHeard(auth, r, m);
    } else if m.IsReady? {
      StateLetters(m.state);
    }
  }

  lemma ReportIsHeard(auth: AuthOracle, r: Reply, m: Said)
    requires Sayable(m) && (m.Errs? || m.Warns?)
    ensures Apply(auth, r, EventOf(Say(m).kind), Say(m).payload) == (Hears(auth, r, m), Ends(auth, r, m))
  {
    ReportAlone(m.items, if m.Errs? then r.error else NO_ERROR);
  }

  lemma SettingIsHeard(auth: AuthOracle, r: Reply, m: Said)
    requires m.Sets? && Sayable(m)
    ensures Apply(auth, r, EventOf(Say(m).kind), Say(m).payload) == (Hears(auth, r, m), false)
  {
    SettingIsRead(m.name, m.value, r.parameters);
  }

  lemma KeyIsHeard(auth: AuthOracle, r: Reply, m: Said)
    requires m.Identifies? && Sayable(m)
    ensures Apply(auth, r, EventOf(Say(m).kind), Say(m).payload) == (Hears(auth, r, m), false)
  {
    KeyIsRead(m.pid, m.secret, r.backendKey);
  }

  lemma NegotiationIsHeard(auth: AuthOracle, r: Reply, m: Said)
    requires m.Negotiates? && Sayable(m)
    ensures Apply(auth, r, EventOf(Say(m).kind), Say(m).payload) == (Hears(auth, r, m), false)
  {
    NegotiationIsRead(m.version, m.options);
  }

  lemma NotificationIsHeard(auth: AuthOracle, r: Reply, m: Said)
    requires m.Notifies? && Sayable(m)
    ensures Apply(auth, r, EventOf(Say(m).kind), Say(m).payload) == (Hears(auth, r, m), r.notifyMode)
  {
    NotificationIsRead(m.n);
  }

  lemma ReportAlone(items: Items, e: ErrorInfo)
    requires ItemsFit(items)
    ensures ErrorFields(WriteItems(items), 0, e) == Reported(items, e)
  {
    var s := WriteItems(items);
    assert s[0..] == s + [];
    ReportIsRead(s, 0, items, [], e);
  }

  // ---- payloads that are cut short ----

  lemma CutTexts(name: bytes, value: bytes, data: bytes, from: nat)
    requires NulFree(name) && NulFree(value) && from <= |data|
    requires data[from..] < name + [0] + value + [0]
    ensures var first := ReadCString(data, from); first.CString? ==> ReadCString(data, first.next).NoNul?
  {
    var whole, cut := name + [0] + value + [0], data[from..];
    if |cut| <= |name| {
      assert cut == whole[..|cut|] == name[..|cut|];
      NoNulIff(data, from);
    } else {
      var rest := value[..|cut| - |name| - 1];
      assert cut == whole[..|cut|] == name + [0] + rest;
      StringAt(data, from, name, rest);
      NoNulIff(data, from + |name| + 1);
    }
  }

  lemma CutNotification(n: Notify, cut: bytes)
    requires NulFree(n.channel) && NulFree(n.payload)
    requires cut < WriteU32(n.pid) + (n.channel + [0] + n.payload + [0])
    ensures NotificationOf(cut) == None
  {
    if |cut| >= 4 {
      assert cut[4..] == (n.channel + [0] + n.payload + [0])[..|cut| - 4];
      CutTexts(n.channel, n.payload, cut, 4);
    }
  }

  /** A parameter status or a notification that is cut short, and key data of less
      than two words, change nothing. */
  lemma CutIsIgnored(auth: AuthOracle, r: Reply, m: Said, cut: bytes)
    requires Sayable(m) && (m.Sets? || m.Notifies? || m.Identifies?)
    requires cut < Say(m).payload && (m.Identifies? ==> |cut| < 8)
    ensures StepOf(auth)(r, Frame(Say(m).kind, cut)) == (r, m.Notifies? && r.notifyMode)
  {
    assert StepOf(auth)(r, Frame(Say(m).kind, cut)) == Apply(auth, r, EventOf(Say(m).kind), cut);
    match m
    case Sets(name, value) =>
      assert cut[0..] == cut;
      CutTexts(name, value, cut, 0);
    case Notifies(n) => CutNotification(n, cut);
    case Identifies(_, _) =>
  }

  // ---- conversations ----

  function SayAll(ms: seq<Said>): (fs: seq<Frame>)
    ensures |fs| == |ms| && forall k | 0 <= k < |ms| :: fs[k] == Say(ms[k])
  {
    if ms == [] then [] else [Say(ms[0])] + SayAll(ms[1..])
  }

  predicate AllSayable(ms: seq<Said>) {
    forall k | 0 <= k < |ms| :: Sayable(ms[k])
  }

  /** What is heard up to the message that ends the response, how many messages
      that is, and whether there is such a message. */
  function Listen(auth: AuthOracle, r: Reply, ms: seq<Said>): (res: (Reply, nat, bool))
    ensures res.1 <= |ms|
    decreases |ms|
  {
    if ms == [] then (r, 0, false)
    else if Ends(auth, r, ms[0]) then (Hears(auth, r, ms[0]), 1, true)
    else
      var (r', n, ended) := Listen(auth, Hears(auth, r, ms[0]), ms[1..]);
      (r', n + 1, ended)
  }

  lemma {:induction false} ListenIsRun(auth: AuthOracle, r: Reply, ms: seq<Said>)
    requires AllSayable(ms)
    ensures Run(StepOf(auth), r, SayAll(ms)) == Listen(auth, r, ms)
    decreases |ms|
  {
    if ms != [] {
      SaidIsHeard(auth, r, ms[0]);
      assert SayAll(ms)[1..] == SayAll(ms[1..]);
      ListenIsRun(auth, Hears(auth, r, ms[0]), ms[1..]);
    }
  }

  /** Whatever a server says, cut into chunks anyhow, the response ends with the
      message that ends it and knows what was said up to there, no more and no
      less. */
  lemma ConversationIsHeard(auth: AuthOracle, r: Reply, ms: seq<Said>, chunks: seq<bytes>)
    requires AllSayable(ms) && AllFit(SayAll(ms)) && Concat(chunks) == EncodeAll(SayAll(ms))
    requires Listen(auth, r, ms).2
    ensures var (heard, n, _) := Listen(auth, r, ms);
            var seen := EncodeAll(SayAll(ms)[..n]);
            FeedAll(StepOf(auth), Receiver(r, [], []), chunks) == Fed(Receiver(heard, seen, []), |seen|, Finished)
  {
    ListenIsRun(auth, r, ms);
    assert EncodeAll(SayAll(ms)) + [] == EncodeAll(SayAll(ms));
    WalkEncodeAll(SayAll(ms), []);
    Receiving.FinishedMeaning(StepOf(auth), r, chunks);
  }

  lemma QuietMessage(auth: AuthOracle, r: Reply, m: Said)
    requires r.isStartup && !r.isError && !Ends(auth, r, m)
    ensures var r' := Hears(auth, r, m);
            r'.isStartup && !r'.isError && r'.error == r.error && r'.internalError == r.internalError
  {
    if m.Authenticates? {
      QuietAuth(auth, r, m.request);
    }
  }

  lemma QuietAuth(auth: AuthOracle, r: Reply, request: bytes)
    requires !auth(r.authSeen + [request]).Reject?
    ensures var r' := Hears(auth, r, Authenticates(request));
            && r'.isStartup == r.isStartup && r'.isError == r.isError
            && r'.error == r.error && r'.internalError == r.internalError
  {
  }

  /** A startup response is an error exactly when an error report or a refused
      authentication ends it. */
  lemma {:induction false} StartupFailsIff(auth: AuthOracle, r: Reply, ms: seq<Said>)
    requires r.isStartup && !r.isError
    ensures var (heard, n, ended) := Listen(auth, r, ms);
            && (ended ==> n > 0)
            && (heard.isError <==> ended && (ms[n - 1].Errs? || ms[n - 1].Authenticates?))
            && (ended && ms[n - 1].Errs? ==>
                  heard.error == Reported(ms[n - 1].items, r.error) && heard.internalError == r.internalError)
    decreases |ms|
  {
    if ms != [] && !Ends(auth, r, ms[0]) {
      QuietMessage(auth, r, ms[0]);
      StartupFailsIff(auth, Hears(auth, r, ms[0]), ms[1..]);
    }
  }

  /** A frame of bad length behind what was said ends the response as a failure. */
  lemma BadLengthEnds(auth: AuthOracle, r: Reply, ms: seq<Said>, bad: bytes, chunks: seq<bytes>)
    requires AllSayable(ms) && AllFit(SayAll(ms)) && !Listen(auth, r, ms).2
    requires |bad| >= 5 && ReadU32(bad, 1) < 4 && Concat(chunks) == EncodeAll(SayAll(ms)) + bad
    ensures var seen := EncodeAll(SayAll(ms)) + bad[..5];
            var failed := Refused(Listen(auth, r, ms).0, Text("Invalid frame length < 4"));
            FeedAll(StepOf(auth), Receiver(r, [], []), chunks) == Fed(Receiver(failed, seen, []), |seen|, Finished)
  {
    var step, fs, s := StepOf(auth), SayAll(ms), EncodeAll(SayAll(ms)) + bad;
    ListenIsRun(auth, r, ms);
    DrainsBad(step, r, fs, bad);
    Receiving.FeedsWhole(step, r, chunks);
    FrontAnd(EncodeAll(fs), bad, 5);
  }

  lemma FrontAnd(a: bytes, b: bytes, n: nat)
    requires n <= |b|
    ensures (a + b)[..|a| + n] == a + b[..n]
  {
  }

  lemma DrainsBad(step: Step, r: Reply, fs: seq<Frame>, bad: bytes)
    requires AllFit(fs) && Scan(bad).Malformed? && !Run(step, r, fs).2
    ensures Drain(step, r, EncodeAll(fs) + bad)
         == Drained(Fatal(Run(step, r, fs).0, BAD_LENGTH), |EncodeAll(fs)| + 5, Finished)
  {
    WalkEncodeAll(fs, bad);
    assert fs[..|fs|] == fs;
    Receiving.DrainIsRun(step, r, EncodeAll(fs) + bad);
  }

  // ---- the transaction byte ----

  /** The last frame is ReadyForQuery with this payload. */
  predicate EndsReady(fs: seq<Frame>, payload: bytes) {
    fs != [] && fs[|fs| - 1] == Frame('Z' as int, payload)
  }

  predicate IsState(state: byte) {
    state == 'I' as int || state == 'T' as int || state == 'E' as int
  }

  /** The byte in the reply is the one the last frame holds, if that is a
      ReadyForQuery of one byte, and else the one from before; only such a byte of
      the three is confirmed. */
  predicate SaysReady(r: Reply, r': Reply, fs: seq<Frame>) {
    && (r'.ready <==> EndsReady(fs, [r'.tx]) && IsState(r'.tx))
    && (EndsReady(fs, [r'.tx]) || r'.tx == r.tx)
    && (fs != [] && fs[|fs| - 1].kind == 'Z' as int && |fs[|fs| - 1].payload| == 1 ==> EndsReady(fs, [r'.tx]))
  }

  lemma FrameSaysReady(auth: AuthOracle, r: Reply, f: Frame)
    requires !r.ready
    ensures var (r', finished) := StepOf(auth)(r, f);
            SaysReady(r, r', [f]) && (f.kind == 'Z' as int ==> finished) && (!finished ==> r'.tx == r.tx && !r'.ready)
  {
    assert StepOf(auth)(r, f) == Apply(auth, r, EventOf(f.kind), f.payload);
    if f.kind == 'Z' as int {
      ByteIsRead(auth, r, f.payload);
    } else {
      KeepsByte(auth, r, f);
    }
  }

  lemma ByteIsRead(auth: AuthOracle, r: Reply, payload: bytes)
    ensures var (r', finished) := Apply(auth, r, Ready, payload);
            && finished
            && (if |payload| == 1 then r'.tx == payload[0] && payload == [r'.tx] && (r'.ready <==> IsState(r'.tx))
                else r'.tx == r.tx && !r'.ready)
  {
  }

  lemma KeepsByte(auth: AuthOracle, r: Reply, f: Frame)
    requires f.kind != 'Z' as int
    ensures var r' := Apply(auth, r, EventOf(f.kind), f.payload).0; r'.tx == r.tx && r'.ready == r.ready
  {
    assert !EventOf(f.kind).Ready?;
    OnlyReadySets(auth, r, EventOf(f.kind), f.payload);
  }

  lemma OnlyReadySets(auth: AuthOracle, r: Reply, event: Event, payload: bytes)
    requires !event.Ready?
    ensures var r' := Apply(auth, r, event, payload).0; r'.tx == r.tx && r'.ready == r.ready
  {
    if event.Auth? {
      AuthKeepsByte(auth, r, payload);
    } else {
      NewsKeepsByte(auth, r, event, payload);
    }
  }

  lemma AuthKeepsByte(auth: AuthOracle, r: Reply, payload: bytes)
    ensures ApplyAuth(auth, r, payload).0.tx == r.tx
    ensures ApplyAuth(auth, r, payload).0.ready == r.ready
  {
    var r' := r.(authSeen := r.authSeen + [payload]);
    match auth(r'.authSeen)
    case Proceed(_) =>
    case Reject(message, internal) =>
      assert ApplyAuth(auth, r, payload).0.tx == Fatal(r', message).tx;
  }

  lemma NewsKeepsByte(auth: AuthOracle, r: Reply, event: Event, payload: bytes)
    requires !event.Ready? && !event.Auth?
    ensures var r' := Apply(auth, r, event, payload).0; r'.tx == r.tx && r'.ready == r.ready
  {
    match event
    case Error =>
    case Notification =>
    case _ =>
  }

  lemma {:induction false} RunSaysReady(auth: AuthOracle, r: Reply, fs: seq<Frame>)
    requires !r.ready
    ensures var (r', n, finished) := Run(StepOf(auth), r, fs);
            && SaysReady(r, r', fs[..n])
            && (n > 0 && fs[n - 1].kind == 'Z' as int ==> finished)
    decreases |fs|
  {
    if fs != [] {
      FrameSaysReady(auth, r, fs[0]);
      var (r1, finished) := StepOf(auth)(r, fs[0]);
      if finished {
        assert fs[..1] == [fs[0]];
      } else {
        RunSaysReady(auth, r1, fs[1..]);
        LastOfMore(fs, Run(StepOf(auth), r1, fs[1..]).1);
      }
    }
  }

  lemma LastOfMore(fs: seq<Frame>, n: nat)
    requires fs != [] && n <= |fs| - 1
    ensures var front, rest := fs[..n + 1], fs[1..][..n];
            front == [fs[0]] + rest && (n > 0 ==> front[|front| - 1] == rest[|rest| - 1])
  {
  }

  /** What is handled behind the whole frames: of a frame of bad length five bytes. */
  function TailOf(rest: bytes, finished: bool): (tail: bytes)
    ensures tail == [] || |tail| == 5
  {
    if !finished && Scan(rest).Malformed? then rest[..5] else []
  }

  /** The frames of what has been handled, whatever ended the loop. */
  lemma HandledFrames(step: Step, r: Reply, s: bytes)
    requires Passable(step, r, s)
    ensures var (r', n, finished) := Run(step, r, Walk(s).0);
            var d := Drain(step, r, s);
            && Walk(s[..d.used]) == (Walk(s).0[..n], TailOf(Walk(s).1, finished))
            && (d.reply == r' || d.reply == Fatal(r', BAD_LENGTH))
            && (finished ==> d.verdict.Finished?)
  {
    var run := Run(step, r, Walk(s).0);
    if run.2 || !Scan(Walk(s).1).Malformed? {
      UsedWhole(step, r, s);
      WalkFront(s, run.1);
    } else {
      UsedBad(step, r, s);
      WalkBadFront(s);
    }
  }

  lemma UsedWhole(step: Step, r: Reply, s: bytes)
    requires Passable(step, r, s)
    requires Run(step, r, Walk(s).0).2 || !Scan(Walk(s).1).Malformed?
    ensures var run, d := Run(step, r, Walk(s).0), Drain(step, r, s);
            d.used == |EncodeAll(Walk(s).0[..run.1])| && d.reply == run.0 && (run.2 ==> d.verdict.Finished?)
  {
    Receiving.DrainIsRun(step, r, s);
  }

  lemma UsedBad(step: Step, r: Reply, s: bytes)
    requires !Run(step, r, Walk(s).0).2 && Scan(Walk(s).1).Malformed?
    ensures var run, d := Run(step, r, Walk(s).0), Drain(step, r, s);
            && Walk(s).0[..run.1] == Walk(s).0 && d.used == |EncodeAll(Walk(s).0)| + 5
            && d.reply == Fatal(run.0, BAD_LENGTH)
  {
    var fs := Walk(s).0;
    assert fs[..|fs|] == fs;
    Receiving.DrainIsRun(step, r, s);
  }

  lemma WalkFront(s: bytes, n: nat)
    requires n <= |Walk(s).0|
    ensures var used := |EncodeAll(Walk(s).0[..n])|; used <= |s| && Walk(s[..used]) == (Walk(s).0[..n], [])
  {
    var front := Walk(s).0[..n];
    EncodeAllWalk(s);
    Receiving.EncodeAllPrefix(s, n);
    WalkEncodeAll(front, []);
    assert EncodeAll(front) + [] == EncodeAll(front);
  }

  lemma WalkBadFront(s: bytes)
    requires Scan(Walk(s).1).Malformed?
    ensures var used := |EncodeAll(Walk(s).0)| + 5; used <= |s| && Walk(s[..used]) == (Walk(s).0, Walk(s).1[..5])
  {
    var (fs, rest) := Walk(s);
    EncodeAllWalk(s);
    assert s[..|EncodeAll(fs)| + 5] == EncodeAll(fs) + rest[..5];
    BadFront(rest);
    WalkEncodeAll(fs, rest[..5]);
  }

  lemma BadFront(rest: bytes)
    requires Scan(rest).Malformed?
    ensures Scan(rest[..5]).Malformed?
  {
    BigEndian(rest, 1);
    BigEndian(rest[..5], 1);
  }

  /** After any exchange on a cleared response, finished or not, however its bytes
      were cut: the byte is confirmed exactly when the last frame handled is
      ReadyForQuery with that very byte, 'I', 'T' or 'E'; without a ReadyForQuery
      of one byte at the end it is the byte from before the exchange. */
  lemma ReadyIsWhatWasSaid(auth: AuthOracle, r: Reply, chunks: seq<bytes>)
    requires Passable(StepOf(auth), Cleared(r), Concat(chunks))
    ensures var fed := FeedAll(StepOf(auth), Receiver(Cleared(r), [], []), chunks);
            var fs := Walk(fed.after.seen).0;
            && SaysReady(r, fed.after.reply, fs)
            && (fs != [] && fs[|fs| - 1].kind == 'Z' as int ==> fed.verdict.Finished?)
  {
    var step, s := StepOf(auth), Concat(chunks);
    Receiving.FeedsWhole(step, Cleared(r), chunks);
    DrainSaysReady(auth, Cleared(r), s);
  }

  lemma DrainSaysReady(auth: AuthOracle, r: Reply, s: bytes)
    requires !r.ready && Passable(StepOf(auth), r, s)
    ensures var d := Drain(StepOf(auth), r, s);
            var fs := Walk(s[..d.used]).0;
            && SaysReady(r, d.reply, fs)
            && (fs != [] && fs[|fs| - 1].kind == 'Z' as int ==> d.verdict.Finished?)
  {
    HandledFrames(StepOf(auth), r, s);
    RunSaysReady(auth, r, Walk(s).0);
  }
}
