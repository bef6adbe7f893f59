/** What the response machine does with a whole stream, however it is cut. */
module Receiving {
  import opened Wire
  import opened Framing
  import opened Parser
  import opened Response
  import opened Transaction

  // ---- chunks do not matter ----

  /** One frame of the loop, with more bytes behind the ones at hand. */
  lemma DrainStep(step: Step, r: Reply, s: bytes, more: bytes)
    requires Scan(s).Complete? && !step(r, Scan(s).frame).1
    ensures var n := Scan(s).Size();
            Drain(step, r, s + more) == Drain(step, step(r, Scan(s).frame).0, s[n..] + more).After(n)
  {
    ScanExtends(s, more);
  }

  /** More bytes leave a decided outcome alone. */
  lemma {:induction false} DrainDecided(step: Step, r: Reply, s: bytes, more: bytes)
    requires !Drain(step, r, s).verdict.Pending?
    ensures Drain(step, r, s + more) == Drain(step, r, s)
    decreases |s|
  {
    var scan := Scan(s);
    ScanExtends(s, more);
    if scan.Complete? && !step(r, scan.frame).1 {
      DrainStep(step, r, s, more);
      DrainDecided(step, step(r, scan.frame).0, s[scan.Size()..], more);
    }
  }

  /** An undecided outcome goes on from the bytes `t` where it stopped. */
  lemma {:induction false} DrainResumes(step: Step, r: Reply, s: bytes, t: bytes, more: bytes)
    requires Drain(step, r, s).verdict.Pending? && t == s[Drain(step, r, s).used..]
    ensures var d := Drain(step, r, s);
            Drain(step, r, s + more) == Drain(step, d.reply, t + more).After(d.used)
    decreases |s|
  {
    if Scan(s).Complete? {
      var n, r' := Scan(s).Size(), step(r, Scan(s).frame).0;
      var d := Drain(step, r', s[n..]);
      DrainStep(step, r, s, more);
      assert s[n..][d.used..] == s[n + d.used..];
      DrainResumes(step, r', s[n..], t, more);
    } else {
      assert t == s;
    }
  }

  /** An undecided outcome leaves no complete frame unread. */
  lemma {:induction false} DrainRests(step: Step, r: Reply, s: bytes)
    requires Drain(step, r, s).verdict.Pending?
    ensures Scan(s[Drain(step, r, s).used..]).Short?
    decreases |s|
  {
    var scan := Scan(s);
    if scan.Short? {
      assert s[0..] == s;
    } else {
      var r', rest := step(r, scan.frame).0, s[scan.Size()..];
      DrainRests(step, r', rest);
      Slices(s, scan.Size(), Drain(step, r', rest).used, |rest|);
    }
  }

  /** Only a stream that carries the length 0xFFFFFFFF overruns. */
  lemma {:induction false} DrainWrapFree(step: Step, r: Reply, s: bytes)
    requires WrapFree(s)
    ensures !Drain(step, r, s).verdict.Overrun?
    decreases |s|
  {
    var scan := Scan(s);
    if scan.Complete? {
      DrainWrapFree(step, step(r, scan.frame).0, s[scan.Size()..]);
    }
  }

  /** A loop that waits for more bytes was left none that carry it. */
  lemma {:induction false} PendingIsWrapFree(step: Step, r: Reply, s: bytes)
    requires Drain(step, r, s).verdict.Pending?
    ensures WrapFree(s)
    decreases |s|
  {
    var scan := Scan(s);
    if scan.Complete? {
      PendingIsWrapFree(step, step(r, scan.frame).0, s[scan.Size()..]);
    }
  }

  lemma MalformedIsWrapFree(s: bytes)
    requires Scan(s).Malformed?
    ensures WrapFree(s[..5])
  {
    assert ReadU32(s[..5], 1) == ReadU32(s, 1);
    assert s[..5][5..] == [];
  }

  lemma FrameIsWrapFree(s: bytes, used: nat)
    requires Scan(s).Complete? && Scan(s).Size() <= used <= |s|
    requires WrapFree(s[Scan(s).Size()..used])
    ensures WrapFree(s[..used])
  {
    var n := Scan(s).Size();
    EncodeScan(s);
    ScanEncode(Scan(s).frame, s[n..used]);
    assert s[..used] == s[..n] + s[n..used];
  }

  /** And a loop that gets through the bytes has taken none. */
  lemma {:induction false} TakenIsWrapFree(step: Step, r: Reply, s: bytes, used: nat)
    requires Passable(step, r, s) && used == Drain(step, r, s).used
    ensures WrapFree(s[..used])
    decreases |s|
  {
    var scan := Scan(s);
    if scan.Malformed? {
      MalformedIsWrapFree(s);
    } else if scan.Complete? {
      var n := scan.Size();
      var (r', finished) := step(r, scan.frame);
      if finished {
        assert s[n..n] == [];
      } else {
        TakenIsWrapFree(step, r', s[n..], used - n);
        assert s[n..][..used - n] == s[n..used];
      }
      FrameIsWrapFree(s, used);
    } else {
      assert s[..used] == [];
    }
  }

  lemma FeedKeepsResting(step: Step, st: Receiver, data: bytes)
    requires !Feed(step, st, data).verdict.Overrun?
    ensures Feed(step, st, data).after.Resting()
  {
    if Feed(step, st, data).verdict.Pending? {
      DrainRests(step, st.reply, st.unread + data);
    }
  }

  /** A call that has returned 1 is not affected by what would have come next. */
  lemma FeedDecided(step: Step, st: Receiver, a: bytes, b: bytes)
    requires !Feed(step, st, a).verdict.Pending?
    ensures Feed(step, st, a).verdict.Finished? ==> Feed(step, st, a + b) == Feed(step, st, a)
    ensures Feed(step, st, a).verdict.Overrun? ==> Feed(step, st, a + b).verdict.Overrun?
  {
    var s := st.unread + a;
    assert st.unread + (a + b) == s + b;
    DrainDecided(step, st.reply, s, b);
    var used := Drain(step, st.reply, s).used;
    assert (s + b)[..used] == s[..used];
  }

  /** Otherwise two chunks fed one after the other are one chunk. */
  lemma FeedResumes(step: Step, st: Receiver, a: bytes, b: bytes)
    requires Feed(step, st, a).verdict.Pending?
    ensures var f := Feed(step, st, a);
            var g := Feed(step, f.after, b);
            Feed(step, st, a + b) == g.(size := f.size + g.size)
  {
    var s := st.unread + a;
    var d := Drain(step, st.reply, s);
    var s' := s[d.used..] + b;
    assert st.unread + (a + b) == s + b;
    DrainResumes(step, st.reply, s, s[d.used..], b);
    SettleResumes(st, s, |a|, b, d, Drain(step, d.reply, s'));
  }

  lemma SettleResumes(st: Receiver, s: bytes, size: nat, b: bytes, d: Drained, e: Drained)
    requires d.verdict.Pending? && d.used <= |s| && e.used <= |s[d.used..] + b|
    ensures var f := Settle(st, s, size, d);
            var g := Settle(f.after, s[d.used..] + b, |b|, e);
            Settle(st, s + b, size + |b|, e.After(d.used)) == g.(size := f.size + g.size)
  {
    CutTwice(s, b, d.used, e.used);
    var s' := s[d.used..] + b;
    assert st.seen + s[..d.used] + s'[..e.used] == st.seen + (s[..d.used] + s'[..e.used]);
  }

  /** Any cutting of a stream into chunks has the effect of the stream fed
      whole: same fields, same buffer and cursor, same total size, same verdict. */
  lemma {:induction false} ChunksAreOne(step: Step, st: Receiver, chunks: seq<bytes>)
    requires st.Resting()
    requires !Feed(step, st, Concat(chunks)).verdict.Overrun?
    ensures FeedAll(step, st, chunks) == Feed(step, st, Concat(chunks))
    decreases |chunks|
  {
    if chunks == [] {
      assert st.unread + [] == st.unread;
      assert st.seen + [] == st.seen;
    } else {
      var f := Feed(step, st, chunks[0]);
      if !f.verdict.Pending? {
        FeedDecided(step, st, chunks[0], Concat(chunks[1..]));
      } else {
        FeedResumes(step, st, chunks[0], Concat(chunks[1..]));
        FeedKeepsResting(step, st, chunks[0]);
        ChunksAreOne(step, f.after, chunks[1..]);
      }
    }
  }

  lemma ChunkIndependence(step: Step, st: Receiver, one: seq<bytes>, other: seq<bytes>)
    requires st.Resting() && Concat(one) == Concat(other)
    requires !Feed(step, st, Concat(one)).verdict.Overrun?
    ensures FeedAll(step, st, one) == FeedAll(step, st, other)
  {
    ChunksAreOne(step, st, one);
    ChunksAreOne(step, st, other);
  }

  /** On an unread part without a complete frame, new frames end in new bytes. */
  lemma DrainNeeds(step: Step, r: Reply, residue: bytes, data: bytes)
    requires Scan(residue).Short? && Drain(step, r, residue + data).verdict.Finished?
    ensures Drain(step, r, residue + data).used > |residue|
  {
    var s := residue + data;
    if |residue| >= 5 {
      assert ReadU32(residue, 1) == ReadU32(s, 1);
    }
    assert Scan(s).Size() > |residue|;
  }

  /** A finishing call took a part of its own chunk: the bytes read beyond the
      finishing frame are fewer than the chunk, so the reported size is at least
      1 and at most the chunk, and the buffer gained exactly that many bytes. */
  lemma OverReadBound(step: Step, st: Receiver, data: bytes)
    requires st.Resting() && Feed(step, st, data).verdict.Finished?
    ensures var f := Feed(step, st, data);
            && 0 < f.size <= |data|
            && f.after.unread == []
            && f.after.seen == st.seen + st.unread + data[..f.size]
  {
    var s := st.unread + data;
    DrainNeeds(step, st.reply, st.unread, data);
    var used := Drain(step, st.reply, s).used;
    assert s[..used] == st.unread + data[..used - |st.unread|];
  }

  /** From an empty buffer all chunks together are one run of the loop. */
  lemma FeedsWhole(step: Step, r: Reply, chunks: seq<bytes>)
    requires Passable(step, r, Concat(chunks))
    ensures var s := Concat(chunks);
            var d := Drain(step, r, s);
            FeedAll(step, Receiver(r, [], []), chunks)
            == if d.verdict.Finished? then Fed(Receiver(d.reply, s[..d.used], []), d.used, Finished)
               else Fed(Receiver(d.reply, s[..d.used], s[d.used..]), |s|, d.verdict)
  {
    var s := Concat(chunks);
    assert [] + s == s;
    ChunksAreOne(step, Receiver(r, [], []), chunks);
    Settled(Receiver(r, [], []), s, Drain(step, r, s));
  }

  lemma Settled(st: Receiver, s: bytes, d: Drained)
    requires st.seen == [] && d.used <= |s|
    ensures Settle(st, s, |s|, d)
         == if d.verdict.Finished? then Fed(Receiver(d.reply, s[..d.used], []), d.used, Finished)
            else Fed(Receiver(d.reply, s[..d.used], s[d.used..]), |s|, d.verdict)
  {
  }

  /** Whatever the buffer holds after an exchange that the loop gets through, a
      finish on a frame of bad length and no finish at all included, it carries
      the length 0xFFFFFFFF at no frame boundary. */
  lemma BufferIsWrapFree(step: Step, r: Reply, chunks: seq<bytes>)
    requires Passable(step, r, Concat(chunks))
    ensures var after := FeedAll(step, Receiver(r, [], []), chunks).after;
            WrapFree(after.seen) && WrapFree(after.seen + after.unread)
  {
    var s := Concat(chunks);
    var d := Drain(step, r, s);
    FeedsWhole(step, r, chunks);
    TakenIsWrapFree(step, r, s, d.used);
    if d.verdict.Pending? {
      PendingIsWrapFree(step, r, s);
    }
    BufferIs(s, d.used, FeedAll(step, Receiver(r, [], []), chunks).after);
  }

  lemma BufferIs(s: bytes, used: nat, after: Receiver)
    requires used <= |s| && after.seen == s[..used] && (after.unread == [] || after.unread == s[used..])
    ensures after.seen + after.unread == if after.unread == [] then s[..used] else s
  {
    assert s[..used] + [] == s[..used] && s[..used] + s[used..] == s;
  }

  // ---- the machine is the fold ----

  /** The loop on bytes is the fold over the frames of those bytes. */
  lemma {:induction false} DrainIsRun(step: Step, r: Reply, s: bytes)
    ensures var (fs, rest) := Walk(s);
            var (r', n, finished) := Run(step, r, fs);
            var used := |EncodeAll(fs[..n])|;
            Drain(step, r, s)
            == if finished then Drained(r', used, Finished)
               else if Scan(rest).Malformed? then Drained(Fatal(r', BAD_LENGTH), used + 5, Finished)
               else Drained(r', used, if Scan(rest).Short? then Pending else Overrun)
    decreases |s|
  {
    var scan := Scan(s);
    if scan.Complete? {
      var f, s' := scan.frame, s[scan.Size()..];
      var fs' := Walk(s').0;
      var (r', finished) := step(r, f);
      assert ([f] + fs')[1..] == fs';
      if finished {
        assert ([f] + fs')[..1] == [f];
        assert EncodeAll([f]) == Encode(f) + EncodeAll([]) == Encode(f);
      } else {
        DrainIsRun(step, r', s');
        var n := Run(step, r', fs').1;
        assert ([f] + fs')[..n + 1] == [f] + fs'[..n];
        assert ([f] + fs'[..n])[1..] == fs'[..n];
      }
    }
  }

  lemma {:induction false} EncodeAllPrefix(s: bytes, n: nat)
    requires n <= |Walk(s).0|
    ensures var front := EncodeAll(Walk(s).0[..n]);
            |front| <= |s| && front == s[..|front|]
  {
    var (fs, rest) := Walk(s);
    EncodeAllWalk(s);
    assert fs == fs[..n] + fs[n..];
    EncodeAllConcat(fs[..n], fs[n..]);
  }

  /** What a response has when it finishes on a well-formed frame: exactly the
      frames up to the finishing one, folded; their bytes in the buffer, which
      frames again to the same list with nothing left; and the sizes reported
      for the chunks sum to those bytes. */
  lemma FinishedMeaning(step: Step, r: Reply, chunks: seq<bytes>)
    requires var fs := Walk(Concat(chunks)).0; Run(step, r, fs).2
    ensures var fs := Walk(Concat(chunks)).0;
            var (r', n, _) := Run(step, r, fs);
            var seen := EncodeAll(fs[..n]);
            && FeedAll(step, Receiver(r, [], []), chunks) == Fed(Receiver(r', seen, []), |seen|, Finished)
            && Walk(seen) == (fs[..n], [])
  {
    var s := Concat(chunks);
    var st := Receiver(r, [], []);
    var (fs, rest) := Walk(s);
    var n := Run(step, r, fs).1;
    var seen := EncodeAll(fs[..n]);
    assert [] + s == s;
    DrainIsRun(step, r, s);
    ChunksAreOne(step, st, chunks);
    EncodeAllPrefix(s, n);
    EncodeAllWalk(s);
    assert seen + [] == seen && [] + seen == seen;
    WalkEncodeAll(fs[..n], []);
  }

  // ---- what the guard relies on ----

  /** The facts every reply keeps: a confirmed transaction byte is one of the
      three, and a reply confirms it or announces COPY IN, never both. */
  predicate Sound(r: Reply) {
    (r.ready ==> IsTxState(r.tx)) && !(r.ready && r.copyIn)
  }

  lemma ApplyKeepsSound(auth: AuthOracle, r: Reply, event: Event, payload: bytes)
    requires Sound(r) && !r.ready && !r.copyIn
    ensures var (r', finished) := Apply(auth, r, event, payload);
            && Sound(r')
            && (!finished ==> !r'.ready && !r'.copyIn)
            && (r'.copyOut <==> r.copyOut || event.CopyOut?)
  {
    match event
    case Auth =>
    case Ready =>
    case Error =>
    case Notification =>
    case _ =>
  }

  lemma {:induction false} RunKeepsSound(auth: AuthOracle, r: Reply, fs: seq<Frame>)
    requires Sound(r) && !r.ready && !r.copyIn
    ensures var (r', n, _) := Run(StepOf(auth), r, fs);
            && Sound(r')
            && (r'.copyOut <==> r.copyOut || exists i | 0 <= i < n :: EventOf(fs[i].kind).CopyOut?)
    decreases |fs|
  {
    if fs != [] {
      var step := StepOf(auth);
      ApplyKeepsSound(auth, r, EventOf(fs[0].kind), fs[0].payload);
      var (r1, finished) := step(r, fs[0]);
      if !finished {
        RunKeepsSound(auth, r1, fs[1..]);
        var (r', n, last) := Run(step, r, fs);
        assert r'.copyOut && !r1.copyOut ==> exists i | 0 <= i < n - 1 :: EventOf(fs[1..][i].kind).CopyOut?;
        if i :| 0 <= i < n && EventOf(fs[i].kind).CopyOut? && i > 0 {
          assert fs[1..][i - 1] == fs[i];
        }
      }
    }
  }

  /** After any exchange on a cleared response, however it was cut into chunks,
      the reply is sound: `ready` makes the transaction byte trustworthy. */
  lemma ReadyIsTrustworthy(auth: AuthOracle, r: Reply, chunks: seq<bytes>)
    requires !Feed(StepOf(auth), Receiver(Cleared(r), [], []), Concat(chunks)).verdict.Overrun?
    ensures Sound(FeedAll(StepOf(auth), Receiver(Cleared(r), [], []), chunks).after.reply)
  {
    var step := StepOf(auth);
    var s := Concat(chunks);
    assert [] + s == s;
    ChunksAreOne(step, Receiver(Cleared(r), [], []), chunks);
    DrainIsRun(step, Cleared(r), s);
    RunKeepsSound(auth, Cleared(r), Walk(s).0);
  }
}
