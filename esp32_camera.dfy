/** The camera object `Esp32Camera`: the frame it holds, the preview
    buffer, the started and streaming flags, and the upload of one picture
    (`Explain`). The camera driver and the display are inputs: each call of
    `esp_camera_fb_get` is answered by one element of a given sequence, and
    `esp_camera_init` by a given success flag. */
module Esp32Camera {
  import opened Common
  import opened JpegQueue
  import opened Multipart
  import opened Upload

  // ---------------------------------------------------------------------
  // Preview geometry chosen by the constructor

  /** The `framesize_t` values the constructor recognises; every other one
      is `OtherSize`. */
  datatype FrameSize = Svga | Vga | Qqvga | Qvga | Size128x128 | Size240x240 | OtherSize(code: int)

  /** The fields of the preview image descriptor that the constructor sets. */
  datatype PreviewGeometry = PreviewGeometry(w: nat, h: nat, stride: nat, dataSize: nat)

  function Dimensions(size: FrameSize): Option<(nat, nat)>
  {
    match size
    case Svga => Some((800, 600))
    case Vga => Some((640, 480))
    case Qqvga => Some((160, 120))
    case Qvga => Some((320, 240))
    case Size128x128 => Some((128, 128))
    case Size240x240 => Some((240, 240))
    case OtherSize(_) => None
  }

  /** RGB565 needs two bytes a pixel: a row of `w` pixels is `2w` bytes
      and the buffer `w * h * 2`. An unknown size leaves the zeroed
      descriptor, so no preview buffer is made. */
  function PreviewFor(size: FrameSize): (g: PreviewGeometry)
    ensures size.OtherSize? <==> g.dataSize == 0
    ensures g.dataSize != 0 ==> g.stride == 2 * g.w && g.dataSize == g.w * g.h * 2
    ensures g.dataSize != 0 ==> Dimensions(size) == Some((g.w, g.h))
  {
    match Dimensions(size)
    case None => PreviewGeometry(0, 0, 0, 0)
    case Some((w, h)) => PreviewGeometry(w, h, w * 2, w * h * 2)
  }

  // ---------------------------------------------------------------------
  // The RGB565 byte swap of `Capture`

  /** The `i`-th pixel of a frame buffer read as a `uint16_t` on the
      little-endian ESP32. */
  function LoadWord(buf: seq<Byte>, i: nat): Word
    requires 2 * i + 1 < |buf|
  {
    (buf[2 * i] as int) + 256 * (buf[2 * i + 1] as int)
  }

  /** `__builtin_bswap16`. */
  function Bswap16(w: Word): Word
  {
    (w % 256) * 256 + w / 256
  }

  /** After the swap the preview holds each pixel with its two bytes in
      frame order, high byte first: the byte order the display expects. */
  lemma SwappedPixelIsBigEndian(buf: seq<Byte>, i: nat)
    requires 2 * i + 1 < |buf|
    ensures Bswap16(LoadWord(buf, i)) == 256 * (buf[2 * i] as int) + (buf[2 * i + 1] as int)
  {
    var lo: int, hi: int := buf[2 * i], buf[2 * i + 1];
    assert (lo + 256 * hi) % 256 == lo && (lo + 256 * hi) / 256 == hi;
  }

  /** `pixel_count = fb_->len / 2`, the bound of the source's loop. */
  function SourcePixelCount(frameLen: nat): nat
  {
    frameLen / 2
  }

  /** The pixels the model copies: those of the frame, but no more than the
      preview buffer has room for. */
  function PixelsToCopy(frameLen: nat, previewWords: nat): (n: nat)
    ensures n <= previewWords && 2 * n <= frameLen
    ensures SourcePixelCount(frameLen) <= previewWords ==> n == SourcePixelCount(frameLen)
    ensures SourcePixelCount(frameLen) > previewWords ==> n == previewWords
  {
    if frameLen / 2 <= previewWords then frameLen / 2 else previewWords
  }

  /** While the sensor delivers RGB565 frames of the size the preview was
      made for, the frame has exactly as many pixels as the preview buffer
      has words, so the bounded copy is the source's copy. */
  lemma ConfiguredFrameFits(size: FrameSize, frameLen: nat)
    requires !size.OtherSize? && frameLen == PreviewFor(size).dataSize
    ensures SourcePixelCount(frameLen) == PreviewFor(size).dataSize / 2
    ensures PixelsToCopy(frameLen, PreviewFor(size).dataSize / 2) == SourcePixelCount(frameLen)
  {
  }

  /** `dst[i] = __builtin_bswap16(src[i])` for the first `count` pixels. */
  method SwapPixels(dst: array<Word>, src: seq<Byte>, count: nat)
    requires count <= dst.Length && 2 * count <= |src|
    modifies dst
    ensures forall i :: 0 <= i < count ==> dst[i] == Bswap16(LoadWord(src, i))
    ensures forall i :: count <= i < dst.Length ==> dst[i] == old(dst[i])
  {
    var i := 0;
    while i < count
      invariant 0 <= i <= count
      invariant forall j :: 0 <= j < i ==> dst[j] == Bswap16(LoadWord(src, j))
      invariant forall j :: i <= j < dst.Length ==> dst[j] == old(dst[j])
    {
      dst[i] := Bswap16(LoadWord(src, i));
      i := i + 1;
    }
  }

  // ---------------------------------------------------------------------
  // Frame bookkeeping

  /** The frames the first `i` calls of `esp_camera_fb_get` lent. */
  function Taken(gets: seq<Option<Frame>>, i: nat): nat
    requires i <= |gets|
  {
    if i == 0 then 0 else Taken(gets, i - 1) + |HeldIds(gets[i - 1])|
  }

  /** The ids given back by the first `i` turns of the frame loop: each
      turn gives back the frame the previous one took. */
  function GivenBack(fb0: Option<Frame>, gets: seq<Option<Frame>>, i: nat): seq<nat>
    requires i <= |gets| + 1
  {
    if i == 0 then [] else GivenBack(fb0, gets, i - 1) + HeldIds(if i == 1 then fb0 else gets[i - 2])
  }

  /** The id of the held frame, if there is one. */
  function HeldIds(fb: Option<Frame>): seq<nat>
    ensures |HeldIds(fb)| == if fb.Some? then 1 else 0
  {
    if fb.Some? then [fb.value.id] else []
  }

  /** The open-failure drain: `xQueueReceive` until the first null-data
      chunk, freeing every other chunk received. `blocked` means the queue
      ran dry before a null-data chunk came, so the receive waits for ever. */
  method DrainQueue(queue: ChunkQueue) returns (blocked: bool, freed: nat)
    requires queue.Valid()
    modifies queue`items, queue`pending
    ensures queue.Valid()
    ensures var s := old(queue.Stream()); var k := SentinelIndex(s);
      && blocked == (k == |s|) && freed == k
      && (!blocked ==> queue.Stream() == s[k + 1..])
  {
    ghost var s := queue.Stream();
    freed := 0;
    while true
      invariant queue.Valid() && freed <= |s| && queue.Stream() == s[freed..]
      invariant forall i :: 0 <= i < freed ==> s[i].data.Some?
      decreases |s| - freed
    {
      var c := queue.Receive();
      if c.None? {
        return true, freed;
      }
      if c.value.data.None? {
        break;
      }
      freed := freed + 1;            // heap_caps_free(chunk.data)
    }
    return false, freed;
  }

  /** The receive loop of the upload: each chunk received is written to
      the request, added to `total_sent` and freed, until the first
      null-data chunk, which is neither written nor freed. */
  method ForwardChunks(queue: ChunkQueue, http: HttpClient) returns (blocked: bool, freed: nat, totalSent: nat)
    requires queue.Valid()
    modifies queue`items, queue`pending, http`writes
    ensures queue.Valid()
    ensures var s := old(queue.Stream()); var k := SentinelIndex(s);
      && blocked == (k == |s|) && freed == k
      && http.writes == old(http.writes) + Payloads(s[..k])
      && totalSent == TotalLen(s[..k])
      && (!blocked ==> queue.Stream() == s[k + 1..])
  {
    ghost var s := queue.Stream();
    ghost var w0 := http.writes;
    freed, totalSent := 0, 0;
    while true
      invariant queue.Valid() && freed <= |s| && queue.Stream() == s[freed..]
      invariant forall i :: 0 <= i < freed ==> s[i].data.Some?
      invariant http.writes == w0 + Payloads(s[..freed])
      invariant totalSent == TotalLen(s[..freed])
      decreases |s| - freed
    {
      var c := queue.Receive();
      if c.None? {
        return true, freed, totalSent;
      }
      if c.value.data.None? {
        break;
      }
      http.Write(c.value.data.value);
      PayloadsSnoc(s[..freed], s[freed]);
      TotalLenSnoc(s[..freed], s[freed]);
      assert s[..freed + 1] == s[..freed] + [s[freed]];
      totalSent := totalSent + c.value.len;
      freed := freed + 1;            // heap_caps_free(chunk.data)
    }
    return false, freed, totalSent;
  }

  /** The path of `Explain` after `Open` failed: join the encoder, then
      drain the queue, then answer with the connect-failure result. */
  method AfterFailedOpen(queue: ChunkQueue, ghost hs: seq<Header>)
    returns (outcome: ExplainOutcome, freed: nat, leaked: nat, joined: bool)
    requires queue.Valid() && queue.capacity == QueueLength
    modifies queue`items, queue`pending
    ensures var t := ConnectFailTrace(hs, old(queue.Stream()));
      && outcome == t.outcome && freed == t.freed && leaked == t.leaked && joined == t.encoderJoined
  {
    ghost var s := queue.Stream();
    joined := queue.JoinEncoder();
    if !joined {
      return Hang, 0, 0, false;
    }
    var blocked;
    blocked, freed := DrainQueue(queue);
    if blocked {
      return Hang, freed, 0, true;
    }
    leaked := DataCount(queue.Stream());
    return Returned(Ascii(ConnectFailJson)), freed, leaked, true;
  }

  /** The path of `Explain` after `Open` succeeded. */
  method SendUpload(queue: ChunkQueue, http: HttpClient, question: seq<Byte>)
    returns (outcome: ExplainOutcome, freed: nat, leaked: nat, totalSent: nat, joined: bool)
    requires queue.Valid() && queue.capacity == QueueLength
    requires http.writes == [] && !http.bodyRead && !http.closed
    modifies queue`items, queue`pending, http`writes, http`bodyRead, http`closed
    ensures http.headers == old(http.headers)
    ensures var t := UploadTrace(http.headers, question, old(queue.Stream()), http.status, http.response);
      && outcome == t.outcome && freed == t.freed && leaked == t.leaked && totalSent == t.totalSent
      && http.writes == t.writes && http.bodyRead == t.bodyRead && http.closed == t.closed
      && joined == t.encoderJoined
  {
    ghost var s := queue.Stream();
    leaked := 0;
    http.Write(QuestionField(question));
    http.Write(FileHeader());
    var blocked;
    blocked, freed, totalSent := ForwardChunks(queue, http);
    if blocked {
      return Hang, freed, 0, totalSent, false;
    }
    joined := queue.JoinEncoder();
    if !joined {
      return Hang, freed, 0, totalSent, false;
    }
    leaked := DataCount(queue.Stream());
    http.Write(MultipartFooter());
    http.Write([]);
    var status := http.GetStatusCode();
    if status != 200 {
      return Returned(Ascii(UploadFailJson)), freed, leaked, totalSent, true;
    }
    var result := http.ReadAll();
    http.Close();
    return Returned(result), freed, leaked, totalSent, true;
  }

  /** The five `SetHeader` calls of `Explain`; the token is sent only
      when it is set. */
  method SetRequestHeaders(http: HttpClient, token: string, deviceId: string, clientId: string)
    modifies http`headers
    ensures http.headers == old(http.headers) + RequestHeaders(token, deviceId, clientId)
  {
    http.SetHeader("Device-Id", deviceId);
    http.SetHeader("Client-Id", clientId);
    if token != "" {
      http.SetHeader("Authorization", "Bearer " + token);
    }
    http.SetHeader("Content-Type", "multipart/form-data; boundary=" + Boundary);
    http.SetHeader("Transfer-Encoding", "chunked");
  }

  /** `Open` and what follows it, once the queue and the encoder exist. */
  method PostPhoto(queue: ChunkQueue, http: HttpClient, url: string, question: seq<Byte>)
    returns (outcome: ExplainOutcome, freed: nat, leaked: nat, totalSent: nat, joined: bool)
    requires queue.Valid() && queue.capacity == QueueLength
    requires !http.isOpen && http.writes == [] && !http.bodyRead && !http.closed
    modifies queue`items, queue`pending, http`isOpen, http`writes, http`bodyRead, http`closed
    ensures http.headers == old(http.headers)
    ensures var t := if http.openOk then UploadTrace(http.headers, question, old(queue.Stream()), http.status, http.response)
                     else ConnectFailTrace(http.headers, old(queue.Stream()));
      && outcome == t.outcome && freed == t.freed && leaked == t.leaked && totalSent == t.totalSent
      && http.isOpen == t.isOpen && http.writes == t.writes && http.bodyRead == t.bodyRead
      && http.closed == t.closed && joined == t.encoderJoined
  {
    var ok := http.Open("POST", url);
    if !ok {
      outcome, freed, leaked, joined := AfterFailedOpen(queue, http.headers);
      totalSent := 0;
    } else {
      outcome, freed, leaked, totalSent, joined := SendUpload(queue, http, question);
    }
  }

  /** `Capture` takes this many frames and keeps the last one. */
  const FramesToGet: nat := 2

  class Camera {
    /** `config_copy_.frame_size`, the size the preview is made for. */
    const configSize: FrameSize
    /** The frame size the sensor is set to deliver. */
    var sensorSize: FrameSize
    var fb: Option<Frame>
    var previewDataSize: nat
    /** `preview_image_.data`, as the `uint16_t` pixels it is written as. */
    var previewData: array?<Word>
    var previewShown: nat
    var explainUrl: string
    var explainToken: string
    /** `encoder_thread_.joinable()` */
    var encoderJoinable: bool
    var inited: bool
    var streaming: bool
    /** `websocket_protocol_ != nullptr`, and the `SetCameraStreaming`
        calls made on it. */
    var hasProtocol: bool
    var protocolNotices: seq<bool>
    /** The number of frames `esp_camera_fb_get` lent to this object, and
        the ids of those it gave back with `esp_camera_fb_return`, in order. */
    var acquired: nat
    var returned: seq<nat>

    /** Every frame lent to the camera object has gone back to the driver,
        except the one it holds in `fb_`. */
    ghost predicate Valid()
      reads this
    {
      && acquired == |returned| + |HeldIds(fb)|
      && (previewData != null ==> previewData.Length == previewDataSize / 2)
    }

    /** The constructor, without the sensor set-up and warm-up frames.
        `initOk` answers `esp_camera_init`, `sensorOk` whether a sensor
        is found, `allocOk` the allocation of the preview buffer. */
    constructor (frameSize: FrameSize, initOk: bool, sensorOk: bool, allocOk: bool)
      ensures Valid() && (previewData != null ==> fresh(previewData))
      ensures fb == None && !encoderJoinable && !streaming && !hasProtocol
      ensures explainUrl == "" && explainToken == ""
      ensures inited == initOk && configSize == frameSize && sensorSize == frameSize
      ensures previewDataSize == (if initOk && sensorOk then PreviewFor(frameSize).dataSize else 0)
      ensures previewData != null <==> initOk && sensorOk && previewDataSize != 0 && allocOk
      ensures acquired == 0 && returned == [] && protocolNotices == []
    {
      fb := None;
      previewData := null;
      previewDataSize := 0;
      previewShown := 0;
      explainUrl, explainToken := "", "";
      encoderJoinable, streaming, hasProtocol := false, false, false;
      protocolNotices, acquired, returned := [], 0, [];
      inited := initOk;
      configSize, sensorSize := frameSize, frameSize;
      if initOk && sensorOk {
        var g := PreviewFor(frameSize);
        if g.dataSize != 0 {
          previewDataSize := g.dataSize;
          if allocOk {
            previewData := new Word[g.dataSize / 2];
          }
        }
      }
    }

    method SetExplainUrl(url: string, token: string)
      modifies this`explainUrl, this`explainToken
      ensures explainUrl == url && explainToken == token
    {
      explainUrl := url;
      explainToken := token;
    }

    method SetWebsocketProtocol(present: bool)
      modifies this`hasProtocol
      ensures hasProtocol == present
    {
      hasProtocol := present;
    }

    /** `Capture()`: joins a leftover encoder, then takes `FramesToGet`
        frames, giving back the held one before each new one is taken, and
        shows the last one on the display when it is RGB565.
        `gets` answers the calls of `esp_camera_fb_get` in order;
        `hasDisplay` says whether the board has a display. */
    method Capture(gets: seq<Option<Frame>>, hasDisplay: bool) returns (ok: bool)
      requires Valid() && |gets| >= FramesToGet
      modifies this`fb, this`acquired, this`returned, this`encoderJoinable, this`previewShown, previewData
      ensures Valid() && !encoderJoinable
      ensures ok <==> gets[0].Some? && gets[1].Some?
      ensures fb == (if ok then gets[1] else None)
      ensures acquired == old(acquired) + |HeldIds(gets[0])| + (if gets[0].Some? then |HeldIds(gets[1])| else 0)
      ensures returned == old(returned) + HeldIds(old(fb)) + (if gets[0].Some? then HeldIds(gets[0]) else [])
      ensures var copies := ok && previewDataSize != 0 && previewData != null
                            && gets[1].value.format == Rgb565 && hasDisplay;
        && (copies ==>
              var n := PixelsToCopy(gets[1].value.Len(), previewData.Length);
              && (forall i :: 0 <= i < n ==> previewData[i] == Bswap16(LoadWord(gets[1].value.buf, i)))
              && (forall i :: n <= i < previewData.Length ==> previewData[i] == old(previewData[i]))
              && previewShown == old(previewShown) + 1)
        && (!copies ==>
              && previewShown == old(previewShown)
              && (previewData != null ==> previewData[..] == old(previewData[..])))
    {
      if encoderJoinable {
        encoderJoinable := false;
      }
      ok := TakeFrames(gets);
      if ok {
        ShowPreview(hasDisplay);
      }
    }

    /** The frame loop of `Capture`. */
    method TakeFrames(gets: seq<Option<Frame>>) returns (ok: bool)
      requires Valid() && |gets| >= FramesToGet
      modifies this`fb, this`acquired, this`returned
      ensures Valid()
      ensures ok <==> gets[0].Some? && gets[1].Some?
      ensures fb == (if ok then gets[1] else None)
      ensures acquired == old(acquired) + |HeldIds(gets[0])| + (if gets[0].Some? then |HeldIds(gets[1])| else 0)
      ensures returned == old(returned) + HeldIds(old(fb)) + (if gets[0].Some? then HeldIds(gets[0]) else [])
    {
      var i := 0;
      while i < FramesToGet
        invariant 0 <= i <= FramesToGet
        invariant Valid()
        invariant i >= 1 ==> gets[0].Some?
        invariant i == 2 ==> gets[1].Some?
        invariant fb == (if i == 0 then old(fb) else gets[i - 1])
        invariant acquired == old(acquired) + Taken(gets, i)
        invariant returned == old(returned) + GivenBack(old(fb), gets, i)
      {
        NextFrame(gets[i]);
        if fb.None? {
          return false;
        }
        i := i + 1;
      }
      return true;
    }

    /** One turn of the frame loop: `esp_camera_fb_return` of the held
        frame, if any, then `fb_ = esp_camera_fb_get()`, answered by `g`. */
    method NextFrame(g: Option<Frame>)
      requires Valid()
      modifies this`fb, this`acquired, this`returned
      ensures Valid() && fb == g
      ensures returned == old(returned) + HeldIds(old(fb)) && acquired == old(acquired) + |HeldIds(g)|
    {
      if fb.Some? {
        returned := returned + [fb.value.id];
      }
      fb := g;
      acquired := acquired + |HeldIds(g)|;
    }

    /** The display part of `Capture`: byte-swap the RGB565 frame into the
        preview buffer and show it. */
    method ShowPreview(hasDisplay: bool)
      requires Valid() && fb.Some?
      modifies this`previewShown, previewData
      ensures Valid()
      ensures var copies := previewDataSize != 0 && previewData != null
                            && fb.value.format == Rgb565 && hasDisplay;
        && (copies ==>
              var n := PixelsToCopy(fb.value.Len(), previewData.Length);
              && (forall i :: 0 <= i < n ==> previewData[i] == Bswap16(LoadWord(fb.value.buf, i)))
              && (forall i :: n <= i < previewData.Length ==> previewData[i] == old(previewData[i]))
              && previewShown == old(previewShown) + 1)
        && (!copies ==>
              && previewShown == old(previewShown)
              && (previewData != null ==> previewData[..] == old(previewData[..])))
    {
      if previewDataSize == 0 || previewData == null {
        return;
      }
      if fb.value.format == Rgb565 && hasDisplay {
        var n := PixelsToCopy(fb.value.Len(), previewData.Length);
        SwapPixels(previewData, fb.value.buf, n);
        previewShown := previewShown + 1;
      }
    }

    /** `StartCamera()`: a no-op that succeeds once the camera is started;
        otherwise `esp_camera_init` decides, answered by `initOk`, and a
        successful init sets the sensor back to the configured size. */
    method StartCamera(initOk: bool) returns (ok: bool)
      modifies this`inited, this`sensorSize
      ensures old(inited) ==> ok && inited && sensorSize == old(sensorSize)
      ensures !old(inited) ==> ok == initOk && inited == initOk
      ensures !old(inited) && initOk ==> sensorSize == configSize
      ensures !ok ==> sensorSize == old(sensorSize)
    {
      if inited {
        return true;
      }
      if !initOk {
        return false;
      }
      inited := true;
      sensorSize := configSize;
      return true;
    }

    /** `StopCamera()`: a no-op when not started; otherwise gives back the
        held frame, frees the preview buffer and clears `inited_`. */
    method StopCamera()
      requires Valid()
      modifies this`fb, this`returned, this`previewData, this`inited
      ensures Valid()
      ensures !old(inited) ==> fb == old(fb) && returned == old(returned)
                               && previewData == old(previewData) && !inited
      ensures old(inited) ==> fb == None && returned == old(returned) + HeldIds(old(fb))
                              && previewData == null && !inited
    {
      if !inited {
        return;
      }
      if fb.Some? {
        returned := returned + [fb.value.id];
        fb := None;
      }
      if previewData != null {
        previewData := null;
      }
      inited := false;
    }

    /** `StartStreaming(fps, quality)`, without the quality setting and the
        warm-up frames. `sensorFound` answers `esp_camera_sensor_get`; when
        there is a sensor it is switched to QQVGA, whatever size the preview
        was made for. */
    method StartStreaming(fps: int, quality: int, sensorFound: bool) returns (ok: bool)
      modifies this`streaming, this`protocolNotices, this`sensorSize
      ensures old(streaming) ==> ok && streaming && protocolNotices == old(protocolNotices)
                                 && sensorSize == old(sensorSize)
      ensures !old(streaming) && !inited ==> !ok && !streaming && protocolNotices == old(protocolNotices)
                                             && sensorSize == old(sensorSize)
      ensures !old(streaming) && inited ==>
        && ok && streaming && protocolNotices == old(protocolNotices) + (if hasProtocol then [true] else [])
        && sensorSize == (if sensorFound then Qqvga else old(sensorSize))
    {
      if streaming {
        return true;
      }
      if !inited {
        return false;
      }
      streaming := true;
      if sensorFound {
        sensorSize := Qqvga;
      }
      if hasProtocol {
        protocolNotices := protocolNotices + [true];
      }
      return true;
    }

    method StopStreaming()
      modifies this`streaming, this`protocolNotices
      ensures !streaming
      ensures protocolNotices == old(protocolNotices) + (if old(streaming) && hasProtocol then [false] else [])
    {
      if !streaming {
        return;
      }
      streaming := false;
      if hasProtocol {
        protocolNotices := protocolNotices + [false];
      }
    }

    method IsStreaming() returns (r: bool)
      ensures r == streaming
    {
      r := streaming;
    }

    /** `Explain(question)`. The encoder thread would send `encoded` into
        the queue; `queueOk` answers `xQueueCreate`; `deviceId` and
        `clientId` are the board's MAC address and UUID; `http` is the fresh
        client from `CreateHttp`. Returns the outcome, the number of chunk
        buffers freed, the number still in the queue when it is deleted, and
        `total_sent`. */
    method Explain(question: seq<Byte>, encoded: seq<JpegChunk>, queueOk: bool,
                   deviceId: string, clientId: string, http: HttpClient)
      returns (outcome: ExplainOutcome, freed: nat, leaked: nat, totalSent: nat)
      requires fb.Some?
      requires !encoderJoinable
      requires http.Untouched()
      modifies this`encoderJoinable, http
      ensures var t := ExplainSpec(explainUrl, explainToken, question, encoded, queueOk, deviceId, clientId,
                                   http.openOk, http.status, http.response);
        && outcome == t.outcome && freed == t.freed && leaked == t.leaked && totalSent == t.totalSent
        && http.headers == t.headers && http.isOpen == t.isOpen && http.writes == t.writes
        && http.bodyRead == t.bodyRead && http.closed == t.closed
        && encoderJoinable == (t.encoderSpawned && !t.encoderJoined)
    {
      freed, leaked, totalSent := 0, 0, 0;
      if explainUrl == "" {
        return Returned(Ascii(NotSetJson)), 0, 0, 0;
      }
      if !queueOk {
        return Returned(Ascii(QueueFailJson)), 0, 0, 0;
      }
      var queue := new ChunkQueue(QueueLength, encoded);
      encoderJoinable := true;

      SetRequestHeaders(http, explainToken, deviceId, clientId);
      assert queue.Stream() == encoded;
      var joined;
      outcome, freed, leaked, totalSent, joined := PostPhoto(queue, http, explainUrl, question);
      if joined {
        encoderJoinable := false;
      }
    }
  }

  // ---------------------------------------------------------------------
  // The byte swap as the source bounds it

  /** The source's loop copies `fb_->len / 2` pixels into a buffer of
      `data_size / 2` words. Once `StartStreaming` has switched the sensor
      of a camera made for 128x128 to QQVGA, an RGB565 frame of the
      sensor's size has more pixels than the preview buffer has words, so
      that loop writes past the buffer; the bounded copy stops at its end. */
  lemma SourceSwapOverrunsPreview(cam: Camera, f: Frame)
    requires cam.Valid() && cam.previewData != null
    requires cam.configSize == Size128x128 && cam.previewDataSize == PreviewFor(cam.configSize).dataSize
    requires cam.sensorSize == Qqvga && f.format == Rgb565 && f.Len() == PreviewFor(cam.sensorSize).dataSize
    ensures SourcePixelCount(f.Len()) > cam.previewData.Length
    ensures PixelsToCopy(f.Len(), cam.previewData.Length) == cam.previewData.Length
  {
  }

  /** The camera of the lemma above is reachable: made for 128x128 with
      the driver, the sensor and the allocation all succeeding, then
      streaming, it is handed a 160x120 RGB565 frame of 38400 bytes. The
      source would copy 19200 pixels into 16384 words. */
  method OverrunScenario() returns (sourcePixels: nat, previewWords: nat)
    ensures sourcePixels == 19200 && previewWords == 16384
  {
    var cam := new Camera(Size128x128, true, true, true);
    var ok := cam.StartStreaming(8, 12, true);
    var buf: seq<Byte> := seq(38400, _ => 0);
    var f := Frame(0, Rgb565, buf, 160, 120);
    SourceSwapOverrunsPreview(cam, f);
    sourcePixels, previewWords := SourcePixelCount(f.Len()), cam.previewData.Length;
  }
}
