/** A finished response, read through the cursor and through the COPY getters. */
module CopyOut {
  import opened Wire
  import opened Framing
  import opened Parser
  import opened Response
  import Receiving
  import Backend
  import opened Cursor
  import opened Moving
  import opened Reading

  /** A finished response holds ReadyForQuery, if at all, in its last frame: the
      buffer the cursor gets is clean. */
  lemma {:induction false} FinishedIsClean(auth: AuthOracle, r: Reply, fs: seq<Frame>)
    requires AllFit(fs)
    ensures Clean(fs[..Run(StepOf(auth), r, fs).1])
    decreases |fs|
  {
    if fs != [] {
      var (r', finished) := StepOf(auth)(r, fs[0]);
      var rest := if finished then [] else fs[1..][..Run(StepOf(auth), r', fs[1..]).1];
      var n := Run(StepOf(auth), r, fs).1;
      assert fs[..n] == [fs[0]] + rest;
      assert fs[..n][1..] == rest;
      if !finished {
        FinishedIsClean(auth, r', fs[1..]);
      }
    }
  }

  /** What the cursor is opened on after an exchange that finished on a
      well-formed frame, however the bytes arrived: a clean list of frames, whose
      reading is the one pass over them. */
  lemma FinishedResponseReads(auth: AuthOracle, r: Reply, chunks: seq<bytes>)
    requires Run(StepOf(auth), r, Walk(Concat(chunks)).0).2
    ensures var fs := Walk(Concat(chunks)).0;
            var seen := fs[..Run(StepOf(auth), r, fs).1];
            var fed := FeedAll(StepOf(auth), Receiver(r, [], []), chunks);
            && fed.verdict.Finished? && fed.after.seen == EncodeAll(seen) && fed.after.unread == []
            && Clean(seen) && WrapFree(fed.after.seen)
            && ReadAll(fed.after.seen) == OnePass(START, seen, false).Outcome()
  {
    var fs := Walk(Concat(chunks)).0;
    var seen := fs[..Run(StepOf(auth), r, fs).1];
    EncodeAllWalk(Concat(chunks));
    FinishedIsClean(auth, r, fs);
    Receiving.FinishedMeaning(StepOf(auth), r, chunks);
    WrapFreeEncodeAll(seen);
    CleanIsHeld(seen);
    CursorRefinesOnePass(EncodeAll(seen));
  }

  lemma HandledIsHeld(auth: AuthOracle, r: Reply, s: bytes)
    requires Passable(StepOf(auth), r, s)
    ensures var d := Drain(StepOf(auth), r, s); Held(s[..d.used]) && (d.verdict.Pending? ==> Held(s))
  {
    var step, fs := StepOf(auth), Walk(s).0;
    EncodeAllWalk(s);
    FinishedIsClean(auth, r, fs);
    Backend.HandledFrames(step, r, s);
    Receiving.DrainIsRun(step, r, s);
    assert !Run(step, r, fs).2 ==> fs[..Run(step, r, fs).1] == fs;
  }

  /** Whatever became of an exchange (a good end, a bad frame, no end at all), what
      the cursor yields on the buffer is the one pass over its whole frames. */
  lemma AnyResponseReads(auth: AuthOracle, r: Reply, chunks: seq<bytes>)
    requires Passable(StepOf(auth), r, Concat(chunks))
    ensures var after := FeedAll(StepOf(auth), Receiver(r, [], []), chunks).after;
            var buffer := after.seen + after.unread;
            Held(buffer) && ReadAll(buffer) == OnePass(START, Frames(buffer), false).Outcome()
  {
    var s := Concat(chunks);
    var after := FeedAll(StepOf(auth), Receiver(r, [], []), chunks).after;
    Receiving.FeedsWhole(StepOf(auth), r, chunks);
    Receiving.BufferIs(s, Drain(StepOf(auth), r, s).used, after);
    HandledIsHeld(auth, r, s);
    CursorRefinesOnePass(after.seen + after.unread);
  }

  // ---- COPY OUT ----

  /** One COPY OUT statement from some frame on, asynchronous frames anywhere:
      CopyData, one CopyDone, CommandComplete, at most a ReadyForQuery;
      `ended`: CopyDone is behind. */
  predicate CopyShape(fs: seq<Frame>, ended: bool)
    decreases |fs|
  {
    fs != [] &&
    match EventOf(fs[0].kind)
    case CopyData => !ended && CopyShape(fs[1..], false)
    case CopyDone => !ended && CopyShape(fs[1..], true)
    case CommandComplete => ended && forall i | 0 < i < |fs| :: RoleOf(fs[i].kind) in {Aside, Idle}
    case _ => RoleOf(fs[0].kind).Aside? && CopyShape(fs[1..], ended)
  }

  /** Each payload as a row of one cell. */
  function OneCellRows(payloads: seq<bytes>): (rows: seq<seq<Datum>>)
    ensures |rows| == |payloads|
    ensures forall i | 0 <= i < |payloads| :: rows[i] == [Value(payloads[i])]
  {
    if payloads == [] then [] else [[Value(payloads[0])]] + OneCellRows(payloads[1..])
  }

  lemma CopyRowsMeets(fs: seq<Frame>)
    requires AllFit(fs) && fs != []
    ensures var s, s' := EncodeAll(fs), EncodeAll(fs[1..]);
            CopyRows(s) ==
            match EventOf(fs[0].kind)
            case CopyData => [fs[0].payload] + CopyRows(s')
            case CopyDone => []
            case CommandComplete => []
            case Ready => []
            case _ => CopyRows(s')
    ensures CopyEnded(EncodeAll(fs)) <==> EventOf(fs[0].kind) in {CopyDone, Ready} || CopyEnded(EncodeAll(fs[1..]))
  {
    ScanEncode(fs[0], EncodeAll(fs[1..]));
  }

  /** Inside the COPY: the rows still to come from the cursor are the CopyData
      still to come. */
  lemma {:induction false} CopyOpenAgrees(fs: seq<Frame>, ended: bool)
    requires Clean(fs) && CopyShape(fs, ended)
    ensures var s := EncodeAll(fs);
            && Rows(Position(s, [], [], false)).0 == OneCellRows(if ended then [] else CopyRows(s))
            && (!ended ==> CopyEnded(s))
    decreases |fs|
  {
    var c := Position(EncodeAll(fs), [], [], false);
    MeetEncoded(fs);
    CopyRowsMeets(fs);
    if RoleOf(fs[0].kind).Aside? {
      RowsSkip(c);
      CopyOpenAgrees(fs[1..], ended || EventOf(fs[0].kind).CopyDone?);
    } else {
      FetchMeets(c);
      if RoleOf(fs[0].kind).Copied? {
        CopyOpenAgrees(fs[1..], false);
        OneCellRowsCons(fs[0].payload, CopyRows(EncodeAll(fs[1..])));
      }
    }
  }

  lemma OneCellRowsCons(p: bytes, ps: seq<bytes>)
    ensures OneCellRows([p] + ps) == [[Value(p)]] + OneCellRows(ps)
  {
    assert ([p] + ps)[1..] == ps;
  }

  /** The frames in front of the first that ends a COPY. */
  function BeforeEnd(fs: seq<Frame>): seq<Frame> {
    if fs == [] || fs[0].kind == 'c' as int || fs[0].kind == 'C' as int || fs[0].kind == 'Z' as int then []
    else [fs[0]] + BeforeEnd(fs[1..])
  }

  function DataOf(fs: seq<Frame>): seq<bytes> {
    if fs == [] then [] else (if fs[0].kind == 'd' as int then [fs[0].payload] else []) + DataOf(fs[1..])
  }

  /** A COPY or the response ends somewhere. */
  predicate HasEnd(fs: seq<Frame>) {
    exists k :: 0 <= k < |fs| && EndsData(fs[k])
  }

  predicate EndsData(f: Frame) {
    f.kind == 'c' as int || f.kind == 'Z' as int
  }

  lemma HasEndStep(fs: seq<Frame>)
    requires fs != []
    ensures HasEnd(fs) <==> EndsData(fs[0]) || HasEnd(fs[1..])
  {
    forall k | 0 <= k < |fs[1..]| && EndsData(fs[1..][k])
      ensures HasEnd(fs)
    {
      assert EndsData(fs[k + 1]);
    }
    forall k | 0 < k < |fs| && EndsData(fs[k])
      ensures HasEnd(fs[1..])
    {
      assert EndsData(fs[1..][k - 1]);
    }
  }

  lemma GettersMeet(s: bytes)
    requires Scan(s).Complete?
    ensures var f, rest := Scan(s).frame, s[Scan(s).Size()..];
            && CopyRows(s) == (if f.kind == 'd' as int then [f.payload] + CopyRows(rest)
                               else if f.kind == 'c' as int || f.kind == 'C' as int || f.kind == 'Z' as int then []
                               else CopyRows(rest))
            && (CopyEnded(s) <==> EndsData(f) || CopyEnded(rest))
            && Frames(s) == [f] + Frames(rest)
  {
    EndLetters(Scan(s).frame.kind);
    CopyRowsAt(s, Scan(s).frame, s[Scan(s).Size()..]);
  }

  lemma EndLetters(kind: byte)
    ensures var event := EventOf(kind);
            && (event == CopyData <==> kind == 'd' as int) && (event == CopyDone <==> kind == 'c' as int)
            && (event == CommandComplete <==> kind == 'C' as int) && (event == Ready <==> kind == 'Z' as int)
  {
  }

  lemma DataStep(fs: seq<Frame>)
    requires fs != []
    ensures var kind, rest := fs[0].kind, DataOf(BeforeEnd(fs[1..]));
            DataOf(BeforeEnd(fs)) == if kind == 'd' as int then [fs[0].payload] + rest
                                     else if kind == 'c' as int || kind == 'C' as int || kind == 'Z' as int then []
                                     else rest
  {
    assert BeforeEnd(fs) != [] ==> BeforeEnd(fs)[1..] == BeforeEnd(fs[1..]);
    assert [] + DataOf(BeforeEnd(fs[1..])) == DataOf(BeforeEnd(fs[1..]));
  }

  /** What the getters read out of any bytes: the data up to the first end of a COPY,
      of a statement or of the response, and whether a COPY or the response ends;
      both only up to a frame of bad length or one that is cut short. */
  lemma {:induction false} GettersRead(s: bytes)
    ensures CopyRows(s) == DataOf(BeforeEnd(Frames(s)))
    ensures CopyEnded(s) <==> HasEnd(Frames(s))
    decreases |s|
  {
    if Scan(s).Complete? {
      var fs, rest := Frames(s), s[Scan(s).Size()..];
      GettersMeet(s);
      assert fs[1..] == Frames(rest);
      GettersRead(rest);
      DataStep(fs);
      HasEndStep(fs);
    } else {
      assert Frames(s) == [];
    }
  }

  lemma MetadataMeets(fs: seq<Frame>)
    requires Clean(fs) && fs != []
    ensures var s, role := EncodeAll(fs), RoleOf(fs[0].kind);
            && (role.Aside? ==> Metadata(s) == Metadata(EncodeAll(fs[1..])))
            && (role.Copied? ==> Metadata(s) == Position(s, [], [], false))
            && (role.Closing? ==> Rows(Metadata(s)).0 == [])
  {
    MeetEncoded(fs);
  }

  /** From the start of the response, header scan included. */
  lemma {:induction false} CopyStartAgrees(fs: seq<Frame>, ended: bool)
    requires Clean(fs) && CopyShape(fs, ended)
    ensures var s := EncodeAll(fs);
            && Rows(Metadata(s)).0 == OneCellRows(if ended then [] else CopyRows(s))
            && (!ended ==> CopyEnded(s))
    decreases |fs|
  {
    MetadataMeets(fs);
    CopyRowsMeets(fs);
    if RoleOf(fs[0].kind).Aside? {
      CopyStartAgrees(fs[1..], ended || EventOf(fs[0].kind).CopyDone?);
    } else if RoleOf(fs[0].kind).Copied? {
      CopyOpenAgrees(fs, false);
    }
  }

  /** For every finished response to one COPY OUT statement (its CopyOutResponse
      is frame `h`), asynchronous frames interleaved and bytes cut anyhow:
      `get_copy_data` and draining the cursor give the same rows, and
      `is_copy_done` is true. */
  lemma CopyOutAgrees(auth: AuthOracle, r: Reply, chunks: seq<bytes>, h: nat)
    requires Run(StepOf(auth), Cleared(r), Walk(Concat(chunks)).0).2
    requires var fs := Walk(Concat(chunks)).0;
             var n := Run(StepOf(auth), Cleared(r), fs).1;
             CopyShape(fs[..n], false) && h < n && EventOf(fs[h].kind).CopyOut?
    ensures var after := FeedAll(StepOf(auth), Receiver(Cleared(r), [], []), chunks).after;
            && after.reply.copyOut
            && Rows(Metadata(after.seen)).0 == OneCellRows(CopyRows(after.seen))
            && CopyEnded(after.seen)
  {
    var fs := Walk(Concat(chunks)).0;
    FinishedResponseReads(auth, Cleared(r), chunks);
    Receiving.FinishedMeaning(StepOf(auth), Cleared(r), chunks);
    CopyStartAgrees(fs[..Run(StepOf(auth), Cleared(r), fs).1], false);
    Receiving.RunKeepsSound(auth, Cleared(r), fs);
  }
}
