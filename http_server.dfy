/** The camera's HTTP endpoints: the MJPEG live view (`stream_handler`),
    `/start`, `/stop` and `/snapshot`. The HTTP server is a log of the
    responses a handler makes; the camera driver answers each
    `esp_camera_fb_get` from a script, and `frame2jpg` is given as the
    JPEG it would produce or `None` when it fails. */
module CamHttp {
  import opened Common
  import Esp32Camera

  // ---------------------------------------------------------------------
  // What a handler does that can be observed

  /** One `httpd_resp_*` call. */
  datatype Resp =
    | SetStatus(status: string)
    | SetType(contentType: string)
    | SetHeader(name: string, value: string)
    | SendStr(text: string)
    | SendChunk(bytes: seq<Byte>)
    | SendBody(bytes: seq<Byte>)
    | Send500

  /** A handler's effects in the order it makes them: a frame taken from
      the driver with `esp_camera_fb_get` and given back with
      `esp_camera_fb_return`, a JPEG buffer made by `frame2jpg` and released
      with `free`, a response call, and the warning logged when the count of
      empty frames reaches a multiple of 50. */
  datatype Effect =
    | Got(id: nat)
    | GaveBack(id: nat)
    | Allocated
    | Freed
    | Respond(r: Resp)
    | Warned(count: nat)

  /** The element `f` picks, if any. */
  function Pick<T>(o: Option<T>): seq<T>
  {
    if o.Some? then [o.value] else []
  }

  /** The elements `f` picks out of a log, in order. */
  function Filter<T>(log: seq<Effect>, f: Effect -> Option<T>): seq<T>
  {
    if log == [] then [] else Pick(f(log[0])) + Filter(log[1..], f)
  }

  lemma {:induction false} FilterConcat<T>(a: seq<Effect>, b: seq<Effect>, f: Effect -> Option<T>)
    ensures Filter(a + b, f) == Filter(a, f) + Filter(b, f)
  {
    if a == [] {
      assert a + b == b;
    } else {
      assert (a + b)[0] == a[0];
      assert (a + b)[1..] == a[1..] + b;
      FilterConcat(a[1..], b, f);
    }
  }

  lemma FilterOne<T>(e: Effect, f: Effect -> Option<T>)
    ensures Filter([e], f) == Pick(f(e))
  {
    assert [e][1..] == [];
  }

  function GotId(e: Effect): Option<nat> { if e.Got? then Some(e.id) else None }
  function GaveBackId(e: Effect): Option<nat> { if e.GaveBack? then Some(e.id) else None }
  function AllocMark(e: Effect): Option<bool> { if e.Allocated? then Some(true) else None }
  function FreeMark(e: Effect): Option<bool> { if e.Freed? then Some(true) else None }
  function RespOf(e: Effect): Option<Resp> { if e.Respond? then Some(e.r) else None }

  /** The frames taken and the frames given back, by id and in order; the
      JPEG buffers made and freed; the response calls. */
  function GotIds(log: seq<Effect>): seq<nat> { Filter(log, GotId) }
  function ReturnedIds(log: seq<Effect>): seq<nat> { Filter(log, GaveBackId) }
  function Allocs(log: seq<Effect>): nat { |Filter(log, AllocMark)| }
  function Frees(log: seq<Effect>): nat { |Filter(log, FreeMark)| }
  function Responses(log: seq<Effect>): seq<Resp> { Filter(log, RespOf) }

  /** The five views of a one-effect log. */
  lemma ViewsOne(e: Effect)
    ensures GotIds([e]) == Pick(GotId(e)) && ReturnedIds([e]) == Pick(GaveBackId(e))
    ensures Allocs([e]) == |Pick(AllocMark(e))| && Frees([e]) == |Pick(FreeMark(e))|
    ensures Responses([e]) == Pick(RespOf(e))
  {
    FilterOne(e, GotId);
    FilterOne(e, GaveBackId);
    FilterOne(e, AllocMark);
    FilterOne(e, FreeMark);
    FilterOne(e, RespOf);
  }

  /** The five views distribute over concatenation. */
  lemma ViewsConcat(a: seq<Effect>, b: seq<Effect>)
    ensures GotIds(a + b) == GotIds(a) + GotIds(b) && ReturnedIds(a + b) == ReturnedIds(a) + ReturnedIds(b)
    ensures Allocs(a + b) == Allocs(a) + Allocs(b) && Frees(a + b) == Frees(a) + Frees(b)
    ensures Responses(a + b) == Responses(a) + Responses(b)
  {
    FilterConcat(a, b, GotId);
    FilterConcat(a, b, GaveBackId);
    FilterConcat(a, b, AllocMark);
    FilterConcat(a, b, FreeMark);
    FilterConcat(a, b, RespOf);
  }

  /** The form in which the handlers grow their logs. */
  lemma ViewsSnoc(log: seq<Effect>, e: Effect)
    ensures GotIds(log + [e]) == GotIds(log) + Pick(GotId(e))
    ensures ReturnedIds(log + [e]) == ReturnedIds(log) + Pick(GaveBackId(e))
    ensures Allocs(log + [e]) == Allocs(log) + |Pick(AllocMark(e))|
    ensures Frees(log + [e]) == Frees(log) + |Pick(FreeMark(e))|
    ensures Responses(log + [e]) == Responses(log) + Pick(RespOf(e))
  {
    ViewsConcat(log, [e]);
    ViewsOne(e);
  }

  /** Every frame taken is given back, once and in the order taken, and
      every JPEG buffer made is freed once. */
  predicate Balanced(log: seq<Effect>)
  {
    GotIds(log) == ReturnedIds(log) && Allocs(log) == Frees(log)
  }

  // ---------------------------------------------------------------------
  // The part header written with snprintf into `part_buf[64]`

  function DigitChar(d: nat): char
    requires d < 10
  {
    "0123456789"[d]
  }

  /** `%u`. */
  function Decimal(n: nat): string
  {
    if n < 10 then [DigitChar(n)] else Decimal(n / 10) + [DigitChar(n % 10)]
  }

  function NumDigits(n: nat): nat
  {
    if n < 10 then 1 else 1 + NumDigits(n / 10)
  }

  function Pow10(k: nat): nat
  {
    if k == 0 then 1 else 10 * Pow10(k - 1)
  }

  /** Reads a run of decimal digits back. */
  function ParseDecimal(s: string): nat
  {
    if s == [] then 0
    else
      var c := s[|s| - 1];
      var d := if '0' <= c <= '9' then (c as int) - ('0' as int) else 0;
      10 * ParseDecimal(s[..|s| - 1]) + d
  }

  lemma {:induction false} DecimalLength(n: nat)
    ensures |Decimal(n)| == NumDigits(n)
  {
    if n >= 10 {
      DecimalLength(n / 10);
    }
  }

  lemma {:induction false} DecimalRoundTrip(n: nat)
    ensures ParseDecimal(Decimal(n)) == n
  {
    if n < 10 {
      assert Decimal(n)[..0] == [];
    } else {
      var s := Decimal(n);
      assert s[..|s| - 1] == Decimal(n / 10);
      DecimalRoundTrip(n / 10);
    }
  }

  /** A number has at most `k` digits exactly when it is below `10^k`. */
  lemma {:induction false} DigitsBelow(n: nat, k: nat)
    requires k >= 1
    ensures NumDigits(n) <= k <==> n < Pow10(k)
  {
    if n >= 10 && k >= 2 {
      DigitsBelow(n / 10, k - 1);
    } else if n >= 10 {
      assert Pow10(1) == 10;
    } else {
      PowAtLeast(k);
    }
  }

  lemma {:induction false} PowAtLeast(k: nat)
    requires k >= 1
    ensures Pow10(k) >= 10
  {
    if k > 1 {
      PowAtLeast(k - 1);
    }
  }

  /** The text of the part header for a payload of `n` bytes. */
  function PartHeaderText(n: nat): string
  {
    "--" + "frame" + "\r\nContent-Type: image/jpeg\r\nContent-Length: " + Decimal(n) + "\r\n\r\n"
  }

  function PartHeader(n: nat): seq<Byte>
  {
    Ascii(PartHeaderText(n))
  }

  /** The CRLF that closes each part. */
  const PartEnd: seq<Byte> := Ascii("\r\n")

  /** The header is 55 bytes and the digits of `n`, and its
      Content-Length reads back as `n`. */
  lemma PartHeaderShape(n: nat)
    ensures |PartHeader(n)| == 55 + NumDigits(n)
    ensures PartHeaderText(n)[51..51 + NumDigits(n)] == Decimal(n)
    ensures ParseDecimal(PartHeaderText(n)[51..51 + NumDigits(n)]) == n
  {
    DecimalLength(n);
    DecimalRoundTrip(n);
  }

  /** `part_buf` holds 63 characters and the terminating NUL, so the
      header `hlen` counts is all in the buffer exactly when `n < 10^8`. */
  lemma PartHeaderFits(n: nat)
    ensures |PartHeader(n)| <= 63 <==> n < 100000000
  {
    PartHeaderShape(n);
    DigitsBelow(n, 8);
    assert Pow10(8) == 100000000;
  }

  // ---------------------------------------------------------------------
  // The live-view loop

  /** What the world answers in one turn of `while (s_streaming)`:
      `running` is `s_streaming` as the loop test reads it (`/stop` may
      clear it meanwhile), `frame` the answer of `esp_camera_fb_get`,
      `jpeg` the result of `frame2jpg` for a frame that is not JPEG, and
      the three flags the results of the three `httpd_resp_send_chunk`. */
  datatype Tick = Tick(running: bool, frame: Option<Frame>, jpeg: Option<seq<Byte>>,
                       headOk: bool, bodyOk: bool, tailOk: bool)

  datatype StepResult = StepResult(effects: seq<Effect>, emptyCount: nat, stop: bool)

  /** The three sends of one part, each tried only when the one before
      it succeeded. */
  function PartSends(payload: seq<Byte>, t: Tick): seq<Effect>
  {
    [Respond(SendChunk(PartHeader(|payload|)))]
      + (if t.headOk then
           [Respond(SendChunk(payload))] + (if t.bodyOk then [Respond(SendChunk(PartEnd))] else [])
         else [])
  }

  function PartSent(t: Tick): bool
  {
    t.headOk && t.bodyOk && t.tailOk
  }

  /** One turn of the loop, after the loop test passed, with `c` the
      value of `empty_count`. */
  function Step(t: Tick, c: nat): (r: StepResult)
    ensures t.frame.Some? ==> r.emptyCount == 0
    ensures t.frame.None? ==> r.emptyCount == c + 1 && !r.stop
  {
    if t.frame.None? then
      var c' := c + 1;
      StepResult(if c' % 50 == 0 then [Warned(c')] else [], c', false)
    else
      var fb := t.frame.value;
      if fb.format != Jpeg then
        if t.jpeg.None? then
          StepResult([Got(fb.id), GaveBack(fb.id), Respond(Send500)], 0, true)
        else
          StepResult([Got(fb.id), Allocated, GaveBack(fb.id)] + PartSends(t.jpeg.value, t) + [Freed],
                     0, !PartSent(t))
      else
        StepResult([Got(fb.id)] + PartSends(fb.buf, t) + [GaveBack(fb.id)], 0, !PartSent(t))
  }

  /** The loop from turn `i` on, with `empty_count` at `c` and `acc` done
      so far. It ends when the script does, when the loop test reads
      false, or after a turn that breaks out. */
  function RunFrom(ticks: seq<Tick>, i: nat, c: nat, acc: seq<Effect>): seq<Effect>
    requires i <= |ticks|
    decreases |ticks| - i
  {
    if i == |ticks| || !ticks[i].running then acc
    else
      var r := Step(ticks[i], c);
      if r.stop then acc + r.effects
      else RunFrom(ticks, i + 1, r.emptyCount, acc + r.effects)
  }

  function NotStartedResponse(): seq<Effect>
  {
    [Respond(SetStatus("503 Service Unavailable")), Respond(SetType("text/plain")),
     Respond(SendStr("Camera not started"))]
  }

  function StreamHeaders(): seq<Effect>
  {
    [Respond(SetType("multipart/x-mixed-replace; boundary=frame")),
     Respond(SetHeader("Cache-Control", "no-cache, no-store, must-revalidate")),
     Respond(SetHeader("Pragma", "no-cache")),
     Respond(SetHeader("Connection", "close"))]
  }

  /** Everything `stream_handler` does, given `s_streaming` on entry,
      whether the board has a camera, and the script of the loop. */
  function StreamSpec(streaming: bool, hasCamera: bool, ticks: seq<Tick>): seq<Effect>
  {
    if !streaming then NotStartedResponse()
    else if !hasCamera then StreamHeaders() + [Respond(SetStatus("500")), Respond(SendStr("No camera"))]
    else RunFrom(ticks, 0, 0, StreamHeaders())
  }

  /** `stream_handler`. */
  method StreamHandler(streaming: bool, hasCamera: bool, ticks: seq<Tick>) returns (log: seq<Effect>)
    ensures log == StreamSpec(streaming, hasCamera, ticks)
  {
    if !streaming {
      log := [Respond(SetStatus("503 Service Unavailable")), Respond(SetType("text/plain")),
              Respond(SendStr("Camera not started"))];
      return;
    }
    log := [Respond(SetType("multipart/x-mixed-replace; boundary=frame")),
            Respond(SetHeader("Cache-Control", "no-cache, no-store, must-revalidate")),
            Respond(SetHeader("Pragma", "no-cache")),
            Respond(SetHeader("Connection", "close"))];
    if !hasCamera {
      log := log + [Respond(SetStatus("500")), Respond(SendStr("No camera"))];
      return;
    }
    ghost var start := log;
    var emptyCount: nat := 0;
    var i := 0;
    while i < |ticks| && ticks[i].running
      invariant 0 <= i <= |ticks|
      invariant RunFrom(ticks, i, emptyCount, log) == RunFrom(ticks, 0, 0, start)
      decreases |ticks| - i
    {
      var effects, stop;
      effects, emptyCount, stop := StreamTurn(ticks[i], emptyCount);
      log := log + effects;
      if stop {
        break;
      }
      i := i + 1;
    }
  }

  /** One pass of `while (s_streaming)` in `stream_handler`; `stop` when it
      leaves the loop with `break`. */
  method StreamTurn(t: Tick, c: nat) returns (effects: seq<Effect>, emptyCount: nat, stop: bool)
    ensures StepResult(effects, emptyCount, stop) == Step(t, c)
  {
    if t.frame.None? {
      emptyCount := c + 1;
      effects := if emptyCount % 50 == 0 then [Warned(emptyCount)] else [];
      return effects, emptyCount, false;
    }
    emptyCount := 0;
    var fb := t.frame.value;
    effects := [Got(fb.id)];
    var payload;
    if fb.format != Jpeg {
      if t.jpeg.None? {
        effects := effects + [GaveBack(fb.id), Respond(Send500)];
        return effects, emptyCount, true;
      }
      payload := t.jpeg.value;
      effects := effects + [Allocated, GaveBack(fb.id)];
    } else {
      payload := fb.buf;
    }
    var sent := SendPart(payload, t);
    effects := effects + sent;
    if fb.format != Jpeg {
      effects := effects + [Freed];
    } else {
      effects := effects + [GaveBack(fb.id)];
    }
    stop := !PartSent(t);
  }

  /** The three `httpd_resp_send_chunk` calls of one part, joined by `||`. */
  method SendPart(payload: seq<Byte>, t: Tick) returns (sent: seq<Effect>)
    ensures sent == PartSends(payload, t)
  {
    sent := [Respond(SendChunk(PartHeader(|payload|)))];
    if !t.headOk {
      return;
    }
    sent := sent + [Respond(SendChunk(payload))];
    if !t.bodyOk {
      return;
    }
    sent := sent + [Respond(SendChunk(PartEnd))];
  }

  // ---------------------------------------------------------------------
  // Properties of the live view

  /** The five views of a two-effect log. */
  lemma Views2(x: Effect, y: Effect)
    ensures GotIds([x, y]) == Pick(GotId(x)) + Pick(GotId(y))
    ensures ReturnedIds([x, y]) == Pick(GaveBackId(x)) + Pick(GaveBackId(y))
    ensures Allocs([x, y]) == |Pick(AllocMark(x))| + |Pick(AllocMark(y))|
    ensures Frees([x, y]) == |Pick(FreeMark(x))| + |Pick(FreeMark(y))|
    ensures Responses([x, y]) == Pick(RespOf(x)) + Pick(RespOf(y))
  {
    assert [x, y] == [x] + [y];
    ViewsConcat([x], [y]);
    ViewsOne(x);
    ViewsOne(y);
  }

  /** The five views of a three-effect log. */
  lemma Views3(x: Effect, y: Effect, z: Effect)
    ensures GotIds([x, y, z]) == Pick(GotId(x)) + Pick(GotId(y)) + Pick(GotId(z))
    ensures ReturnedIds([x, y, z]) == Pick(GaveBackId(x)) + Pick(GaveBackId(y)) + Pick(GaveBackId(z))
    ensures Allocs([x, y, z]) == |Pick(AllocMark(x))| + |Pick(AllocMark(y))| + |Pick(AllocMark(z))|
    ensures Frees([x, y, z]) == |Pick(FreeMark(x))| + |Pick(FreeMark(y))| + |Pick(FreeMark(z))|
    ensures Responses([x, y, z]) == Pick(RespOf(x)) + Pick(RespOf(y)) + Pick(RespOf(z))
  {
    assert [x, y, z] == [x] + [y] + [z];
    ViewsConcat([x] + [y], [z]);
    ViewsConcat([x], [y]);
    ViewsOne(x);
    ViewsOne(y);
    ViewsOne(z);
  }

  /** Not streaming: the 503 answer, and the camera is never touched. */
  lemma StreamNotStarted(hasCamera: bool, ticks: seq<Tick>)
    ensures Responses(StreamSpec(false, hasCamera, ticks))
         == [SetStatus("503 Service Unavailable"), SetType("text/plain"), SendStr("Camera not started")]
    ensures GotIds(StreamSpec(false, hasCamera, ticks)) == []
  {
    Views3(Respond(SetStatus("503 Service Unavailable")), Respond(SetType("text/plain")),
           Respond(SendStr("Camera not started")));
  }

  /** The responses of one part: each send is tried only when the one
      before it succeeded. */
  function PartResps(payload: seq<Byte>, t: Tick): seq<Resp>
  {
    [SendChunk(PartHeader(|payload|))]
      + (if t.headOk then [SendChunk(payload)] + (if t.bodyOk then [SendChunk(PartEnd)] else []) else [])
  }

  /** The sends of a part touch neither frames nor JPEG buffers. */
  lemma PartSendsViews(payload: seq<Byte>, t: Tick)
    ensures var s := PartSends(payload, t);
      && GotIds(s) == [] && ReturnedIds(s) == [] && Allocs(s) == 0 && Frees(s) == 0
      && Responses(s) == PartResps(payload, t)
  {
    var h := [Respond(SendChunk(PartHeader(|payload|)))];
    var b := [Respond(SendChunk(payload))];
    var e := [Respond(SendChunk(PartEnd))];
    ViewsOne(h[0]);
    ViewsOne(b[0]);
    ViewsOne(e[0]);
    if t.headOk && t.bodyOk {
      assert PartSends(payload, t) == h + (b + e);
      ViewsConcat(h, b + e);
      ViewsConcat(b, e);
    } else if t.headOk {
      assert PartSends(payload, t) == h + b;
      ViewsConcat(h, b);
    } else {
      assert PartSends(payload, t) == h;
    }
  }

  /** What one turn of the loop adds up to, case by case. */
  lemma StepViews(t: Tick, c: nat)
    ensures var e := Step(t, c).effects;
      t.frame.None? ==> GotIds(e) == [] && ReturnedIds(e) == [] && Allocs(e) == 0 && Frees(e) == 0
    ensures var e := Step(t, c).effects;
      t.frame.Some? ==> GotIds(e) == [t.frame.value.id] && ReturnedIds(e) == [t.frame.value.id]
    ensures var e := Step(t, c).effects;
      t.frame.Some? && t.frame.value.format != Jpeg && t.jpeg.None? ==>
        Allocs(e) == 0 && Frees(e) == 0 && Responses(e) == [Send500]
    ensures var e := Step(t, c).effects;
      t.frame.Some? && t.frame.value.format != Jpeg && t.jpeg.Some? ==>
        Allocs(e) == 1 && Frees(e) == 1 && Responses(e) == PartResps(t.jpeg.value, t)
    ensures var e := Step(t, c).effects;
      t.frame.Some? && t.frame.value.format == Jpeg ==>
        Allocs(e) == 0 && Frees(e) == 0 && Responses(e) == PartResps(t.frame.value.buf, t)
  {
    if t.frame.None? {
      if (c + 1) % 50 == 0 {
        ViewsOne(Warned(c + 1));
      } else {
        assert Step(t, c).effects == [];
      }
    } else {
      var fb := t.frame.value;
      if fb.format != Jpeg && t.jpeg.None? {
        Views3(Got(fb.id), GaveBack(fb.id), Respond(Send500));
      } else if fb.format != Jpeg {
        ConvertedPartViews(fb.id, t.jpeg.value, t);
      } else {
        JpegPartViews(fb.id, fb.buf, t);
      }
    }
  }

  /** A converted frame: taken, converted, given back, sent, freed. */
  lemma ConvertedPartViews(id: nat, jpg: seq<Byte>, t: Tick)
    ensures var e := [Got(id), Allocated, GaveBack(id)] + PartSends(jpg, t) + [Freed];
      && GotIds(e) == [id] && ReturnedIds(e) == [id] && Allocs(e) == 1 && Frees(e) == 1
      && Responses(e) == PartResps(jpg, t)
  {
    var pre := [Got(id), Allocated, GaveBack(id)];
    var sends := PartSends(jpg, t);
    Views3(Got(id), Allocated, GaveBack(id));
    PartSendsViews(jpg, t);
    ViewsConcat(pre + sends, [Freed]);
    ViewsConcat(pre, sends);
    ViewsOne(Freed);
  }

  /** A JPEG frame: taken, sent as it is, given back. */
  lemma JpegPartViews(id: nat, buf: seq<Byte>, t: Tick)
    ensures var e := [Got(id)] + PartSends(buf, t) + [GaveBack(id)];
      && GotIds(e) == [id] && ReturnedIds(e) == [id] && Allocs(e) == 0 && Frees(e) == 0
      && Responses(e) == PartResps(buf, t)
  {
    var sends := PartSends(buf, t);
    PartSendsViews(buf, t);
    ViewsConcat([Got(id)] + sends, [GaveBack(id)]);
    ViewsConcat([Got(id)], sends);
    ViewsOne(Got(id));
    ViewsOne(GaveBack(id));
  }

  lemma BalancedConcat(a: seq<Effect>, b: seq<Effect>)
    requires Balanced(a) && Balanced(b)
    ensures Balanced(a + b)
  {
    ViewsConcat(a, b);
  }

  lemma {:induction false} RunFromBalanced(ticks: seq<Tick>, i: nat, c: nat, acc: seq<Effect>)
    requires i <= |ticks| && Balanced(acc)
    ensures Balanced(RunFrom(ticks, i, c, acc))
    decreases |ticks| - i
  {
    if i < |ticks| && ticks[i].running {
      var r := Step(ticks[i], c);
      StepViews(ticks[i], c);
      BalancedConcat(acc, r.effects);
      if !r.stop {
        RunFromBalanced(ticks, i + 1, r.emptyCount, acc + r.effects);
      }
    }
  }

  /** The headers of the live view touch no frame and no buffer. */
  lemma HeadersNeutral()
    ensures GotIds(StreamHeaders()) == [] && ReturnedIds(StreamHeaders()) == []
    ensures Allocs(StreamHeaders()) == 0 && Frees(StreamHeaders()) == 0
  {
    var h := StreamHeaders();
    assert h == [h[0], h[1], h[2]] + [h[3]];
    Views3(h[0], h[1], h[2]);
    ViewsSnoc([h[0], h[1], h[2]], h[3]);
  }

  /** Whatever the script, every frame the live view takes is given back
      exactly once, in the order taken, and every converted buffer is
      freed exactly once: on success, on a failed conversion and on a
      failed send alike. */
  lemma StreamBalanced(streaming: bool, hasCamera: bool, ticks: seq<Tick>)
    ensures Balanced(StreamSpec(streaming, hasCamera, ticks))
  {
    var h := StreamHeaders();
    HeadersNeutral();
    if !streaming {
      Views3(Respond(SetStatus("503 Service Unavailable")), Respond(SetType("text/plain")),
             Respond(SendStr("Camera not started")));
    } else if !hasCamera {
      var tail := [Respond(SetStatus("500")), Respond(SendStr("No camera"))];
      Views2(tail[0], tail[1]);
      BalancedConcat(h, tail);
    } else {
      RunFromBalanced(ticks, 0, 0, h);
    }
  }

  /** A part whose three sends succeed is the header with the payload's
      length, the payload, and CRLF; the payload is the frame as it is for
      a JPEG frame and the result of `frame2jpg` otherwise. */
  lemma PartOnSuccess(t: Tick, c: nat)
    requires t.frame.Some? && (t.frame.value.format == Jpeg || t.jpeg.Some?) && PartSent(t)
    ensures var payload := if t.frame.value.format == Jpeg then t.frame.value.buf else t.jpeg.value;
      && Responses(Step(t, c).effects)
         == [SendChunk(PartHeader(|payload|)), SendChunk(payload), SendChunk(PartEnd)]
      && !Step(t, c).stop
  {
    StepViews(t, c);
  }

  /** The sends short-circuit: after a failed send nothing more of the
      part is sent, and the loop ends. */
  lemma PartShortCircuit(t: Tick, c: nat)
    requires t.frame.Some? && (t.frame.value.format == Jpeg || t.jpeg.Some?) && !PartSent(t)
    ensures var payload := if t.frame.value.format == Jpeg then t.frame.value.buf else t.jpeg.value;
      var sent := Responses(Step(t, c).effects);
      && Step(t, c).stop
      && (!t.headOk ==> sent == [SendChunk(PartHeader(|payload|))])
      && (t.headOk && !t.bodyOk ==> sent == [SendChunk(PartHeader(|payload|)), SendChunk(payload)])
      && (t.headOk && t.bodyOk ==> sent == [SendChunk(PartHeader(|payload|)), SendChunk(payload), SendChunk(PartEnd)])
  {
    StepViews(t, c);
  }

  /** A frame `frame2jpg` cannot convert is given back, a 500 is sent,
      and the loop ends. */
  lemma ConversionFailureEndsStream(t: Tick, c: nat)
    requires t.frame.Some? && t.frame.value.format != Jpeg && t.jpeg.None?
    ensures Step(t, c).stop
    ensures Responses(Step(t, c).effects) == [Send500]
    ensures ReturnedIds(Step(t, c).effects) == [t.frame.value.id]
  {
    StepViews(t, c);
  }

  /** The warnings logged while `empty_count` goes from `lo` to `hi`. */
  function WarningsBetween(lo: nat, hi: nat): seq<Effect>
    decreases hi - lo
  {
    if lo >= hi then []
    else (if (lo + 1) % 50 == 0 then [Warned(lo + 1)] else []) + WarningsBetween(lo + 1, hi)
  }

  /** A warning is logged for exactly the multiples of 50 that
      `empty_count` reaches. */
  lemma {:induction false} WarningsExact(lo: nat, hi: nat, k: nat)
    ensures Warned(k) in WarningsBetween(lo, hi) <==> lo < k <= hi && k % 50 == 0
    decreases hi - lo
  {
    if lo < hi {
      WarningsExact(lo + 1, hi, k);
    }
  }

  /** `n` turns of the loop that find no frame add `n` to `empty_count` and
      log only the warnings for the multiples of 50 passed on the way. */
  lemma {:induction false} EmptyFrames(ticks: seq<Tick>, i: nat, n: nat, c: nat, acc: seq<Effect>)
    requires i + n <= |ticks|
    requires forall j :: i <= j < i + n ==> ticks[j].running && ticks[j].frame.None?
    ensures RunFrom(ticks, i, c, acc) == RunFrom(ticks, i + n, c + n, acc + WarningsBetween(c, c + n))
    decreases n
  {
    if n == 0 {
      assert acc + WarningsBetween(c, c) == acc;
    } else {
      var r := Step(ticks[i], c);
      EmptyFrames(ticks, i + 1, n - 1, c + 1, acc + r.effects);
      assert WarningsBetween(c, c + n) == r.effects + WarningsBetween(c + 1, c + n);
      assert acc + r.effects + WarningsBetween(c + 1, c + 1 + (n - 1)) == acc + WarningsBetween(c, c + n);
    }
  }

  // ---------------------------------------------------------------------
  // /start, /stop and /snapshot

  /** The handlers' shared state: `s_streaming`. */
  class CamServer {
    var streaming: bool

    constructor ()
      ensures !streaming
    {
      streaming := false;
    }

    /** `start_handler`. `cam` is the board's camera, `null` if it has
        none; `initOk` answers `esp_camera_init` if the camera needs
        starting. */
    method StartHandler(cam: Esp32Camera.Camera?, initOk: bool) returns (resp: seq<Resp>)
      modifies this`streaming, ({cam} - {null})`inited, ({cam} - {null})`sensorSize
      ensures cam != null ==> cam.inited == (old(cam.inited) || initOk)
      ensures cam != null ==>
        cam.sensorSize == (if !old(cam.inited) && initOk then cam.configSize else old(cam.sensorSize))
      ensures var failed := cam != null && !old(cam.inited) && !initOk;
        && (failed ==> resp == [SetStatus("500"), SendStr("Start camera failed")] && streaming == old(streaming))
        && (!failed ==> resp == [SendStr("ok")] && streaming)
    {
      if cam != null && !cam.inited {
        var ok := cam.StartCamera(initOk);
        if !ok {
          return [SetStatus("500"), SendStr("Start camera failed")];
        }
      }
      streaming := true;
      return [SendStr("ok")];
    }

    /** `stop_handler`: `s_streaming` is cleared first, then a started
        camera is stopped. */
    method StopHandler(cam: Esp32Camera.Camera?) returns (resp: seq<Resp>)
      requires cam != null ==> cam.Valid()
      modifies this`streaming, ({cam} - {null})`fb, ({cam} - {null})`returned,
               ({cam} - {null})`previewData, ({cam} - {null})`inited
      ensures !streaming && resp == [SendStr("ok")]
      ensures cam != null ==> cam.Valid() && !cam.inited
      ensures cam != null && old(cam.inited) ==>
        cam.fb == None && cam.previewData == null && cam.returned == old(cam.returned) + Esp32Camera.HeldIds(old(cam.fb))
      ensures cam != null && !old(cam.inited) ==>
        cam.fb == old(cam.fb) && cam.returned == old(cam.returned) && cam.previewData == old(cam.previewData)
    {
      streaming := false;
      if cam != null && cam.inited {
        cam.StopCamera();
      }
      return [SendStr("ok")];
    }
  }

  /** What the `/snapshot` handler does. `frame` answers
      `esp_camera_fb_get` and `jpeg` what `frame2jpg` at quality 80 makes
      of a frame that is not JPEG. */
  function SnapshotSpec(hasCamera: bool, frame: Option<Frame>, jpeg: Option<seq<Byte>>): seq<Effect>
  {
    if !hasCamera then [Respond(SetStatus("500")), Respond(SendStr("No camera"))]
    else if frame.None? then [Respond(SetStatus("503 Service Unavailable")), Respond(SendStr("Frame not ready"))]
    else
      var fb := frame.value;
      if fb.format == Jpeg then
        [Got(fb.id), Respond(SetType("image/jpeg")), Respond(SendBody(fb.buf)), GaveBack(fb.id)]
      else if jpeg.None? then
        [Got(fb.id), GaveBack(fb.id), Respond(Send500)]
      else
        [Got(fb.id), Allocated, GaveBack(fb.id), Respond(SetType("image/jpeg")), Respond(SendBody(jpeg.value)), Freed]
  }

  /** The lambda registered for `/snapshot`. */
  method SnapshotHandler(hasCamera: bool, frame: Option<Frame>, jpeg: Option<seq<Byte>>) returns (log: seq<Effect>)
    ensures log == SnapshotSpec(hasCamera, frame, jpeg)
  {
    if !hasCamera {
      return [Respond(SetStatus("500")), Respond(SendStr("No camera"))];
    }
    if frame.None? {
      return [Respond(SetStatus("503 Service Unavailable")), Respond(SendStr("Frame not ready"))];
    }
    var fb := frame.value;
    log := [Got(fb.id)];
    if fb.format == Jpeg {
      log := log + [Respond(SetType("image/jpeg")), Respond(SendBody(fb.buf)), GaveBack(fb.id)];
      return;
    }
    var ok := jpeg.Some?;
    if ok {
      log := log + [Allocated];
    }
    log := log + [GaveBack(fb.id)];
    if !ok {
      log := log + [Respond(Send500)];
      return;
    }
    log := log + [Respond(SetType("image/jpeg")), Respond(SendBody(jpeg.value)), Freed];
  }

  /** The views of the snapshot's log, path by path. */
  lemma SnapshotRefusedViews(hasCamera: bool, frame: Option<Frame>, jpeg: Option<seq<Byte>>)
    requires !hasCamera || frame.None?
    ensures var log := SnapshotSpec(hasCamera, frame, jpeg);
      && GotIds(log) == [] && ReturnedIds(log) == [] && Allocs(log) == 0 && Frees(log) == 0
      && Responses(log) == [log[0].r, log[1].r]
  {
    var log := SnapshotSpec(hasCamera, frame, jpeg);
    Views2(log[0], log[1]);
  }

  lemma SnapshotJpegViews(fb: Frame, jpeg: Option<seq<Byte>>)
    requires fb.format == Jpeg
    ensures var log := SnapshotSpec(true, Some(fb), jpeg);
      && GotIds(log) == [fb.id] && ReturnedIds(log) == [fb.id] && Allocs(log) == 0 && Frees(log) == 0
      && Responses(log) == [SetType("image/jpeg"), SendBody(fb.buf)]
  {
    var log := [Got(fb.id), Respond(SetType("image/jpeg")), Respond(SendBody(fb.buf)), GaveBack(fb.id)];
    assert log == [log[0], log[1], log[2]] + [log[3]];
    Views3(log[0], log[1], log[2]);
    ViewsSnoc([log[0], log[1], log[2]], log[3]);
  }

  lemma SnapshotFailedViews(fb: Frame)
    requires fb.format != Jpeg
    ensures var log := SnapshotSpec(true, Some(fb), None);
      && GotIds(log) == [fb.id] && ReturnedIds(log) == [fb.id] && Allocs(log) == 0 && Frees(log) == 0
      && Responses(log) == [Send500]
  {
    Views3(Got(fb.id), GaveBack(fb.id), Respond(Send500));
  }

  lemma SnapshotConvertedViews(fb: Frame, j: seq<Byte>)
    requires fb.format != Jpeg
    ensures var log := SnapshotSpec(true, Some(fb), Some(j));
      && GotIds(log) == [fb.id] && ReturnedIds(log) == [fb.id] && Allocs(log) == 1 && Frees(log) == 1
      && Responses(log) == [SetType("image/jpeg"), SendBody(j)]
  {
    var a := [Got(fb.id), Allocated, GaveBack(fb.id)];
    var b := [Respond(SetType("image/jpeg")), Respond(SendBody(j)), Freed];
    Views3(a[0], a[1], a[2]);
    Views3(b[0], b[1], b[2]);
    ViewsConcat(a, b);
    assert SnapshotSpec(true, Some(fb), Some(j)) == a + b;
  }

  /** On every path the snapshot gives back the frame it took exactly once
      and frees the buffer it converted, and nothing else is taken. */
  lemma SnapshotBalanced(hasCamera: bool, frame: Option<Frame>, jpeg: Option<seq<Byte>>)
    ensures var log := SnapshotSpec(hasCamera, frame, jpeg);
      && Balanced(log)
      && GotIds(log) == (if hasCamera && frame.Some? then [frame.value.id] else [])
  {
    if !hasCamera || frame.None? {
      SnapshotRefusedViews(hasCamera, frame, jpeg);
    } else if frame.value.format == Jpeg {
      SnapshotJpegViews(frame.value, jpeg);
    } else if jpeg.None? {
      SnapshotFailedViews(frame.value);
    } else {
      SnapshotConvertedViews(frame.value, jpeg.value);
    }
  }

  /** The answers of the snapshot: 500 without a camera, 503 "Frame not
      ready" without a frame, a JPEG frame as it is, any other frame as
      `frame2jpg` converted it, and a 500 when that fails. */
  lemma SnapshotResponses(hasCamera: bool, frame: Option<Frame>, jpeg: Option<seq<Byte>>)
    ensures var r := Responses(SnapshotSpec(hasCamera, frame, jpeg));
      && (!hasCamera ==> r == [SetStatus("500"), SendStr("No camera")])
      && (hasCamera && frame.None? ==> r == [SetStatus("503 Service Unavailable"), SendStr("Frame not ready")])
      && (hasCamera && frame.Some? && frame.value.format == Jpeg ==>
            r == [SetType("image/jpeg"), SendBody(frame.value.buf)])
      && (hasCamera && frame.Some? && frame.value.format != Jpeg && jpeg.None? ==> r == [Send500])
      && (hasCamera && frame.Some? && frame.value.format != Jpeg && jpeg.Some? ==>
            r == [SetType("image/jpeg"), SendBody(jpeg.value)])
  {
    if !hasCamera || frame.None? {
      SnapshotRefusedViews(hasCamera, frame, jpeg);
    } else if frame.value.format == Jpeg {
      SnapshotJpegViews(frame.value, jpeg);
    } else if jpeg.None? {
      SnapshotFailedViews(frame.value);
    } else {
      SnapshotConvertedViews(frame.value, jpeg.value);
    }
  }

  /** A frame that has to be converted goes back to the driver before
      anything is sent. */
  lemma SnapshotReturnsBeforeSend(frame: Option<Frame>, jpeg: Option<seq<Byte>>)
    requires frame.Some? && frame.value.format != Jpeg
    ensures var log := SnapshotSpec(true, frame, jpeg);
      exists k :: 0 <= k < |log| && log[k] == GaveBack(frame.value.id)
                  && forall j :: 0 <= j < k ==> !log[j].Respond?
  {
    var log := SnapshotSpec(true, frame, jpeg);
    var k := if jpeg.None? then 1 else 2;
    assert log[k] == GaveBack(frame.value.id);
    assert forall j :: 0 <= j < k ==> !log[j].Respond?;
  }
}
