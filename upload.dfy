/** What `Esp32Camera::Explain` does with a request, stated as one function
    of its inputs (`ExplainSpec`), the HTTP client it drives, and the
    properties of that function. The method itself, which runs the receive
    loop over the queue, is in module Esp32Camera and is proved equal to
    `ExplainSpec`. */
module Upload {
  import opened Common
  import opened JpegQueue
  import opened Multipart

  // ---------------------------------------------------------------------
  // Results returned to the caller (the JSON strings of the source)

  const NotSetJson: string := "{\"success\": false, \"message\": \"Image explain URL or token is not set\"}"
  const QueueFailJson: string := "{\"success\": false, \"message\": \"Failed to create JPEG queue\"}"
  const ConnectFailJson: string := "{\"success\": false, \"message\": \"Failed to connect to explain URL\"}"
  const UploadFailJson: string := "{\"success\": false, \"message\": \"Failed to upload photo\"}"

  /** `Hang`: the call never returns, because the uploader or the encoder
      waits for ever on the queue. */
  datatype ExplainOutcome = Returned(result: seq<Byte>) | Hang

  datatype Header = Header(name: string, value: string)

  /** The HTTP client made by `network->CreateHttp(3)`. Its answers come
      from the network and are fixed when it is made: whether `Open`
      succeeds, the status code and the response body. What the uploader
      does with it is recorded. */
  class HttpClient {
    const openOk: bool
    const status: int
    const response: seq<Byte>
    var headers: seq<Header>
    var isOpen: bool
    var writes: seq<seq<Byte>>
    var bodyRead: bool
    var closed: bool

    predicate Untouched()
      reads this
    {
      headers == [] && !isOpen && writes == [] && !bodyRead && !closed
    }

    constructor (openOk: bool, status: int, response: seq<Byte>)
      ensures this.openOk == openOk && this.status == status && this.response == response
      ensures Untouched()
    {
      this.openOk, this.status, this.response := openOk, status, response;
      headers, isOpen, writes, bodyRead, closed := [], false, [], false, false;
    }

    method SetHeader(name: string, value: string)
      modifies this`headers
      ensures headers == old(headers) + [Header(name, value)]
    {
      headers := headers + [Header(name, value)];
    }

    method Open(verb: string, url: string) returns (ok: bool)
      modifies this`isOpen
      ensures ok == openOk && isOpen == openOk
    {
      ok := openOk;
      isOpen := ok;
    }

    /** `Write(data, len)`; its result is ignored by every caller. */
    method Write(data: seq<Byte>)
      modifies this`writes
      ensures writes == old(writes) + [data]
    {
      writes := writes + [data];
    }

    method GetStatusCode() returns (s: int)
      ensures s == status
    {
      s := status;
    }

    method ReadAll() returns (body: seq<Byte>)
      modifies this`bodyRead
      ensures body == response && bodyRead
    {
      body := response;
      bodyRead := true;
    }

    method Close()
      modifies this`closed
      ensures closed
    {
      closed := true;
    }
  }

  // ---------------------------------------------------------------------
  // Functions over the encoder's chunk sequence

  /** The position of the first null-data chunk, or `|s|` when there is none. */
  function SentinelIndex(s: seq<JpegChunk>): (k: nat)
    ensures k <= |s|
    ensures k < |s| ==> s[k].data.None?
    ensures forall i :: 0 <= i < k ==> s[i].data.Some?
  {
    if s == [] then 0
    else if s[0].data.None? then 0
    else 1 + SentinelIndex(s[1..])
  }

  /** The chunks the uploader writes, one write per chunk. */
  function Payloads(s: seq<JpegChunk>): (w: seq<seq<Byte>>)
    requires forall i :: 0 <= i < |s| ==> s[i].data.Some?
  {
    if s == [] then [] else [s[0].data.value] + Payloads(s[1..])
  }

  /** Sum of the `len` fields. */
  function TotalLen(s: seq<JpegChunk>): nat
  {
    if s == [] then 0 else s[0].len + TotalLen(s[1..])
  }

  /** The number of chunks that own a buffer. */
  function DataCount(s: seq<JpegChunk>): nat
  {
    if s == [] then 0 else (if s[0].data.None? then 0 else 1) + DataCount(s[1..])
  }

  /** The bytes of the chunks, in order. */
  function JpegBytes(s: seq<JpegChunk>): seq<Byte>
    requires forall i :: 0 <= i < |s| ==> s[i].data.Some?
  {
    if s == [] then [] else s[0].data.value + JpegBytes(s[1..])
  }

  function Concat(w: seq<seq<Byte>>): seq<Byte>
  {
    if w == [] then [] else w[0] + Concat(w[1..])
  }

  /** The encoder's stream as the uploader expects it: a run of data
      chunks closed by exactly one null-data chunk. */
  predicate WellFormed(s: seq<JpegChunk>)
  {
    && s != []
    && s[|s| - 1].data.None?
    && (forall i :: 0 <= i < |s| - 1 ==> s[i].data.Some?)
    && (forall i :: 0 <= i < |s| ==> s[i].Valid())
  }

  // ---------------------------------------------------------------------
  // The request

  /** The headers, in the order the uploader sets them. */
  function RequestHeaders(token: string, deviceId: string, clientId: string): seq<Header>
  {
    [Header("Device-Id", deviceId), Header("Client-Id", clientId)]
      + (if token != "" then [Header("Authorization", "Bearer " + token)] else [])
      + [Header("Content-Type", "multipart/form-data; boundary=" + Boundary),
         Header("Transfer-Encoding", "chunked")]
  }

  /** Everything one call of `Explain` does that can be observed: its
      outcome, whether it made the queue and the encoder thread and joined
      that thread, what it did with the HTTP client, how many chunk buffers
      it freed, how many it left in the queue when deleting it (`leaked`),
      and its `total_sent` counter. */
  datatype ExplainTrace = ExplainTrace(
    outcome: ExplainOutcome,
    queueCreated: bool,
    encoderSpawned: bool,
    encoderJoined: bool,
    headers: seq<Header>,
    isOpen: bool,
    writes: seq<seq<Byte>>,
    bodyRead: bool,
    closed: bool,
    freed: nat,
    leaked: nat,
    totalSent: nat)

  /** The behaviour of `Explain(question)` on a camera whose URL and token are
      `url` and `token`, when the encoder thread would send `encoded`, when
      `xQueueCreate` succeeds exactly if `queueOk`, and when the network
      answers as `env` says. */
  function ExplainSpec(url: string, token: string, question: seq<Byte>, encoded: seq<JpegChunk>,
                       queueOk: bool, deviceId: string, clientId: string,
                       openOk: bool, status: int, response: seq<Byte>): ExplainTrace
  {
    if url == "" then
      ExplainTrace(Returned(Ascii(NotSetJson)), false, false, false, [], false, [], false, false, 0, 0, 0)
    else if !queueOk then
      ExplainTrace(Returned(Ascii(QueueFailJson)), false, false, false, [], false, [], false, false, 0, 0, 0)
    else
      var hs := RequestHeaders(token, deviceId, clientId);
      if !openOk then ConnectFailTrace(hs, encoded)
      else UploadTrace(hs, question, encoded, status, response)
  }

  /** `Open` failed: the encoder must finish with nobody receiving, and
      then the queue is drained up to the first null-data chunk. */
  function ConnectFailTrace(hs: seq<Header>, encoded: seq<JpegChunk>): ExplainTrace
  {
    var k := SentinelIndex(encoded);
    if |encoded| > QueueLength then
      ExplainTrace(Hang, true, true, false, hs, false, [], false, false, 0, 0, 0)
    else if k == |encoded| then
      ExplainTrace(Hang, true, true, true, hs, false, [], false, false, k, 0, 0)
    else
      ExplainTrace(Returned(Ascii(ConnectFailJson)), true, true, true, hs, false, [], false, false,
                   k, DataCount(encoded[k + 1..]), 0)
  }

  /** `Open` succeeded: the two header pieces, one write per chunk up to
      the first null-data chunk, the join, the footer and the empty write
      that ends the chunked body, then the status check. */
  function UploadTrace(hs: seq<Header>, question: seq<Byte>, encoded: seq<JpegChunk>,
                       status: int, response: seq<Byte>): ExplainTrace
  {
    var k := SentinelIndex(encoded);
    var sent := [QuestionField(question), FileHeader()] + Payloads(encoded[..k]);
    if k == |encoded| || |encoded| - (k + 1) > QueueLength then
      // the receive, or the join after it, waits for ever
      ExplainTrace(Hang, true, true, false, hs, true, sent, false, false, k, 0, TotalLen(encoded[..k]))
    else
      var writes := sent + [MultipartFooter(), []];
      var leaked := DataCount(encoded[k + 1..]);
      var total := TotalLen(encoded[..k]);
      if status != 200 then
        ExplainTrace(Returned(Ascii(UploadFailJson)), true, true, true, hs, true, writes, false, false,
                     k, leaked, total)
      else
        ExplainTrace(Returned(response), true, true, true, hs, true, writes, true, true, k, leaked, total)
  }

  // ---------------------------------------------------------------------
  // Properties

  /** Without a URL nothing is made: no queue, no encoder thread, no request,
      and the answer is the fixed "not set" result. The token is not looked at. */
  lemma ExplainWithoutUrl(token: string, question: seq<Byte>, encoded: seq<JpegChunk>, queueOk: bool,
                          deviceId: string, clientId: string, openOk: bool, status: int, response: seq<Byte>)
    ensures var t := ExplainSpec("", token, question, encoded, queueOk, deviceId, clientId, openOk, status, response);
      && t.outcome == Returned(Ascii(NotSetJson))
      && !t.queueCreated && !t.encoderSpawned && t.headers == [] && t.writes == [] && t.freed == 0
  {
  }

  lemma {:induction false} PayloadsConcat(s: seq<JpegChunk>)
    requires forall i :: 0 <= i < |s| ==> s[i].data.Some?
    ensures |Payloads(s)| == |s|
    ensures Concat(Payloads(s)) == JpegBytes(s)
  {
    if s != [] {
      PayloadsConcat(s[1..]);
    }
  }

  lemma {:induction false} JpegBytesLength(s: seq<JpegChunk>)
    requires forall i :: 0 <= i < |s| ==> s[i].data.Some? && s[i].Valid()
    ensures |JpegBytes(s)| == TotalLen(s)
  {
    if s != [] {
      JpegBytesLength(s[1..]);
    }
  }

  lemma {:induction false} PayloadsSnoc(s: seq<JpegChunk>, c: JpegChunk)
    requires forall i :: 0 <= i < |s| ==> s[i].data.Some?
    requires c.data.Some?
    ensures Payloads(s + [c]) == Payloads(s) + [c.data.value]
  {
    if s == [] {
      assert s + [c] == [c];
      assert [c][1..] == [];
    } else {
      assert (s + [c])[0] == s[0];
      assert (s + [c])[1..] == s[1..] + [c];
      PayloadsSnoc(s[1..], c);
    }
  }

  lemma {:induction false} TotalLenSnoc(s: seq<JpegChunk>, c: JpegChunk)
    ensures TotalLen(s + [c]) == TotalLen(s) + c.len
  {
    if s == [] {
      assert s + [c] == [c];
      assert [c][1..] == [];
    } else {
      assert (s + [c])[0] == s[0];
      assert (s + [c])[1..] == s[1..] + [c];
      TotalLenSnoc(s[1..], c);
    }
  }

  lemma {:induction false} ConcatAppend(a: seq<seq<Byte>>, b: seq<seq<Byte>>)
    ensures Concat(a + b) == Concat(a) + Concat(b)
  {
    if a == [] {
      assert a + b == b;
    } else {
      assert (a + b)[0] == a[0];
      assert (a + b)[1..] == a[1..] + b;
      ConcatAppend(a[1..], b);
    }
  }

  lemma {:induction false} DataCountAll(s: seq<JpegChunk>)
    requires forall i :: 0 <= i < |s| ==> s[i].data.Some?
    ensures DataCount(s) == |s|
  {
    if s != [] {
      DataCountAll(s[1..]);
    }
  }

  /** For a well-formed stream, the sentinel is the last chunk. */
  lemma SentinelLast(s: seq<JpegChunk>)
    requires WellFormed(s)
    ensures SentinelIndex(s) == |s| - 1
  {
  }

  /** A successful upload of a well-formed stream: the request body is the
      two-part multipart body whose file content is the chunks' bytes in the
      order the encoder produced them, `total_sent` is their length, the
      last write is the zero-length one that ends the chunked coding, every
      data chunk is freed and none is left in the queue. */
  lemma UploadOfWellFormedStream(url: string, token: string, question: seq<Byte>, encoded: seq<JpegChunk>,
                                 deviceId: string, clientId: string, status: int, response: seq<Byte>)
    requires url != "" && WellFormed(encoded)
    ensures var t := ExplainSpec(url, token, question, encoded, true, deviceId, clientId, true, status, response);
      var data := encoded[..|encoded| - 1];
      && t.outcome.Returned? && t.encoderJoined
      && Concat(t.writes) == MultipartBody(BoundaryBytes, QuestionPart(question), [FilePart(JpegBytes(data))], true)
      && t.writes[|t.writes| - 1] == []
      && t.totalSent == |JpegBytes(data)|
      && t.freed == |encoded| - 1 == DataCount(encoded) && t.leaked == 0
  {
    var k := |encoded| - 1;
    SentinelLast(encoded);
    var data := encoded[..k];
    PayloadsConcat(data);
    JpegBytesLength(data);
    var t := ExplainSpec(url, token, question, encoded, true, deviceId, clientId, true, status, response);
    var head: seq<seq<Byte>> := [QuestionField(question), FileHeader()];
    var tail: seq<seq<Byte>> := [MultipartFooter(), []];
    assert t.writes == head + Payloads(data) + tail;
    ConcatAppend(head + Payloads(data), tail);
    ConcatAppend(head, Payloads(data));
    assert Concat(head) == QuestionField(question) + FileHeader() by {
      assert head[1..] == [FileHeader()];
      assert Concat(head[1..]) == FileHeader() + Concat([]);
    }
    assert Concat(tail) == MultipartFooter() by {
      assert tail[1..] == [[]];
      assert Concat(tail[1..]) == [] + Concat([]);
    }
    UploadBodyIsMultipart(question, JpegBytes(data));
    DataCountWellFormed(encoded);
  }

  lemma {:induction false} DataCountAppend(a: seq<JpegChunk>, b: seq<JpegChunk>)
    ensures DataCount(a + b) == DataCount(a) + DataCount(b)
  {
    if a == [] {
      assert a + b == b;
    } else {
      assert (a + b)[0] == a[0];
      assert (a + b)[1..] == a[1..] + b;
      DataCountAppend(a[1..], b);
    }
  }

  /** When the request cannot be opened, the uploader joins the encoder
      before draining the queue, so it returns exactly when the whole stream,
      sentinel included, fits in the 40 entries; it then frees every data
      chunk and leaves none behind. */
  lemma OpenFailureDrain(url: string, token: string, question: seq<Byte>, encoded: seq<JpegChunk>,
                         deviceId: string, clientId: string, status: int, response: seq<Byte>)
    requires url != "" && WellFormed(encoded)
    ensures var t := ExplainSpec(url, token, question, encoded, true, deviceId, clientId, false, status, response);
      && (t.outcome.Returned? <==> |encoded| <= QueueLength)
      && (t.outcome.Returned? ==>
            t.outcome.result == Ascii(ConnectFailJson) && t.encoderJoined && t.writes == []
            && t.freed == DataCount(encoded) && t.leaked == 0)
  {
    var hs := RequestHeaders(token, deviceId, clientId);
    assert ExplainSpec(url, token, question, encoded, true, deviceId, clientId, false, status, response)
        == ConnectFailTrace(hs, encoded);
    ConnectFailOfWellFormed(hs, encoded);
  }

  lemma ConnectFailOfWellFormed(hs: seq<Header>, encoded: seq<JpegChunk>)
    requires WellFormed(encoded)
    ensures var t := ConnectFailTrace(hs, encoded);
      && (t.outcome.Returned? <==> |encoded| <= QueueLength)
      && (t.outcome.Returned? ==>
            t.outcome.result == Ascii(ConnectFailJson) && t.encoderJoined && t.writes == []
            && t.freed == DataCount(encoded) && t.leaked == 0)
  {
    DataCountWellFormed(encoded);
  }

  /** A well-formed stream owns one buffer per chunk but the last, and
      nothing follows its sentinel. */
  lemma DataCountWellFormed(s: seq<JpegChunk>)
    requires WellFormed(s)
    ensures SentinelIndex(s) == |s| - 1
    ensures DataCount(s) == |s| - 1 && s[SentinelIndex(s) + 1..] == []
  {
    var k := |s| - 1;
    SentinelLast(s);
    assert s == s[..k] + [s[k]];
    DataCountAll(s[..k]);
    DataCountAppend(s[..k], [s[k]]);
    assert DataCount([s[k]]) == 0 by {
      assert [s[k]][1..] == [];
    }
  }

  /** After a successful open, the first null-data chunk ends the upload
      of data: the two header pieces come first, then the chunks before it
      in order, then the footer and the empty write; it is never written,
      no chunk after it is written or freed, and those after it that
      own a buffer stay in the queue when it is deleted. */
  lemma SentinelStopsUpload(url: string, token: string, question: seq<Byte>, encoded: seq<JpegChunk>,
                            deviceId: string, clientId: string, status: int, response: seq<Byte>)
    requires url != ""
    requires SentinelIndex(encoded) < |encoded|
    ensures var t := ExplainSpec(url, token, question, encoded, true, deviceId, clientId, true, status, response);
      var k := SentinelIndex(encoded);
      && |t.writes| == 2 + k + (if t.outcome.Returned? then 2 else 0)
      && t.writes[..2] == [QuestionField(question), FileHeader()]
      && (forall i :: 0 <= i < k ==> t.writes[2 + i] == encoded[i].data.value)
      && (t.outcome.Returned? ==> t.writes[2 + k..] == [MultipartFooter(), []])
      && t.freed == k
      && (t.outcome.Returned? ==> t.leaked == DataCount(encoded[k + 1..]))
  {
    var k := SentinelIndex(encoded);
    PayloadsAt(encoded[..k]);
  }

  lemma {:induction false} PayloadsAt(s: seq<JpegChunk>)
    requires forall i :: 0 <= i < |s| ==> s[i].data.Some?
    ensures |Payloads(s)| == |s|
    ensures forall i :: 0 <= i < |s| ==> Payloads(s)[i] == s[i].data.value
  {
    if s != [] {
      PayloadsAt(s[1..]);
      assert forall i :: 1 <= i < |s| ==> Payloads(s)[i] == Payloads(s[1..])[i - 1];
    }
  }

  /** The zero-length write that ends the chunked coding of section 7.1 of
      RFC 9112 is the only empty write, provided the encoder never hands
      over an allocated chunk of length 0. */
  lemma OnlyLastWriteEmpty(url: string, token: string, question: seq<Byte>, encoded: seq<JpegChunk>,
                           deviceId: string, clientId: string, status: int, response: seq<Byte>)
    requires url != "" && WellFormed(encoded)
    requires forall i :: 0 <= i < |encoded| - 1 ==> encoded[i].len > 0
    ensures var t := ExplainSpec(url, token, question, encoded, true, deviceId, clientId, true, status, response);
      && t.writes != [] && t.writes[|t.writes| - 1] == []
      && forall i :: 0 <= i < |t.writes| - 1 ==> t.writes[i] != []
  {
    SentinelLast(encoded);
    var k := |encoded| - 1;
    PayloadsAt(encoded[..k]);
    var t := ExplainSpec(url, token, question, encoded, true, deviceId, clientId, true, status, response);
    forall i | 0 <= i < |t.writes| - 1
      ensures t.writes[i] != []
    {
      if 2 <= i < 2 + k {
        assert t.writes[i] == encoded[i - 2].data.value;
        assert |encoded[i - 2].data.value| == encoded[i - 2].len;
      }
    }
  }

  /** `Authorization: Bearer <token>` is sent exactly when the token is not
      empty, and no other header of that name is ever sent. */
  lemma AuthorizationOnlyWithToken(token: string, deviceId: string, clientId: string)
    ensures Header("Authorization", "Bearer " + token) in RequestHeaders(token, deviceId, clientId) <==> token != ""
    ensures forall h :: h in RequestHeaders(token, deviceId, clientId) && h.name == "Authorization"
              ==> token != "" && h.value == "Bearer " + token
  {
  }

  /** A status other than 200 gives the "Failed to upload photo" result
      and the response is not read; 200 returns the response body as it is
      and closes the client. */
  lemma StatusDecidesResult(url: string, token: string, question: seq<Byte>, encoded: seq<JpegChunk>,
                            deviceId: string, clientId: string, status: int, response: seq<Byte>)
    requires url != "" && WellFormed(encoded)
    ensures var t := ExplainSpec(url, token, question, encoded, true, deviceId, clientId, true, status, response);
      && (status != 200 ==> t.outcome == Returned(Ascii(UploadFailJson)) && !t.bodyRead && !t.closed)
      && (status == 200 ==> t.outcome == Returned(response) && t.bodyRead && t.closed)
  {
    SentinelLast(encoded);
  }

  /** On every path on which the call returns after spawning the encoder,
      the encoder has been joined. */
  lemma ReturnedImpliesJoined(url: string, token: string, question: seq<Byte>, encoded: seq<JpegChunk>,
                              queueOk: bool, deviceId: string, clientId: string,
                              openOk: bool, status: int, response: seq<Byte>)
    ensures var t := ExplainSpec(url, token, question, encoded, queueOk, deviceId, clientId, openOk, status, response);
      t.encoderSpawned && t.outcome.Returned? ==> t.encoderJoined
  {
  }
}
