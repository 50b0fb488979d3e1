/** The multipart/form-data request body that `Esp32Camera::Explain`
    assembles, and a reference definition of a multipart body after
    section 5.1.1 of RFC 2046 against which it is checked. */
module Multipart {
  import opened Common

  const Boundary: string := "----ESP32_CAMERA_BOUNDARY"
  const Crlf: string := "\r\n"
  const QuestionDisposition: string := "Content-Disposition: form-data; name=\"question\""
  const FileDisposition: string := "Content-Disposition: form-data; name=\"file\"; filename=\"camera.jpg\""
  const JpegContentType: string := "Content-Type: image/jpeg"

  /** The byte forms of the literals above. */
  const DashDash: seq<Byte> := Ascii("--")
  const BoundaryBytes: seq<Byte> := Ascii(Boundary)
  const CrlfBytes: seq<Byte> := Ascii(Crlf)

  // ---------------------------------------------------------------------
  // The pieces as the uploader writes them

  /** The first write: the `question` text field. */
  function QuestionField(question: seq<Byte>): seq<Byte>
  {
    DashDash + BoundaryBytes + CrlfBytes
      + Ascii(QuestionDisposition) + CrlfBytes
      + CrlfBytes
      + question + CrlfBytes
  }

  /** The second write: the header of the `file` field. */
  function FileHeader(): seq<Byte>
  {
    DashDash + BoundaryBytes + CrlfBytes
      + Ascii(FileDisposition) + CrlfBytes
      + Ascii(JpegContentType) + CrlfBytes
      + CrlfBytes
  }

  /** The write after the JPEG data: the closing boundary. */
  function MultipartFooter(): seq<Byte>
  {
    CrlfBytes + DashDash + BoundaryBytes + DashDash + CrlfBytes
  }

  /** The whole body as the three pieces and the JPEG bytes make it. */
  function UploadBody(question: seq<Byte>, jpeg: seq<Byte>): seq<Byte>
  {
    QuestionField(question) + FileHeader() + jpeg + MultipartFooter()
  }

  // ---------------------------------------------------------------------
  // RFC 2046, section 5.1.1:
  //   multipart-body := dash-boundary CRLF body-part *encapsulation
  //                     close-delimiter [CRLF epilogue]
  //   encapsulation  := delimiter CRLF body-part
  //   delimiter      := CRLF dash-boundary      dash-boundary := "--" boundary
  //   close-delimiter := delimiter "--"
  // A body part is its header fields, each ended by CRLF, an empty line,
  // and its content.

  datatype BodyPart = BodyPart(fields: seq<string>, content: seq<Byte>)

  function FieldLines(fields: seq<string>): seq<Byte>
  {
    if fields == [] then [] else Ascii(fields[0]) + CrlfBytes + FieldLines(fields[1..])
  }

  function PartBytes(p: BodyPart): seq<Byte>
  {
    FieldLines(p.fields) + CrlfBytes + p.content
  }

  function DashBoundary(boundary: seq<Byte>): seq<Byte>
  {
    DashDash + boundary
  }

  function Delimiter(boundary: seq<Byte>): seq<Byte>
  {
    CrlfBytes + DashBoundary(boundary)
  }

  function Encapsulations(boundary: seq<Byte>, parts: seq<BodyPart>): seq<Byte>
  {
    if parts == [] then []
    else Delimiter(boundary) + CrlfBytes + PartBytes(parts[0]) + Encapsulations(boundary, parts[1..])
  }

  /** A multipart body; `epilogue` adds the CRLF that starts an empty epilogue. */
  function MultipartBody(boundary: seq<Byte>, first: BodyPart, rest: seq<BodyPart>, epilogue: bool): seq<Byte>
  {
    DashBoundary(boundary) + CrlfBytes + PartBytes(first) + Encapsulations(boundary, rest)
      + Delimiter(boundary) + DashDash + (if epilogue then CrlfBytes else [])
  }

  /** The form fields of section 4.2 of RFC 7578 that the uploader sends. */
  function QuestionPart(question: seq<Byte>): BodyPart
  {
    BodyPart([QuestionDisposition], question)
  }

  function FilePart(jpeg: seq<Byte>): BodyPart
  {
    BodyPart([FileDisposition, JpegContentType], jpeg)
  }

  /** The uploader's body is laid out as the grammar composes a two-part
      multipart body with the fixed boundary: first the question, then the
      JPEG file, then the close delimiter followed by an empty epilogue.
      This is the composition only: the grammar also asks that the
      delimiter occur in neither content, which the uploader never checks,
      so a question or JPEG holding it would not parse back as two parts. */
  lemma UploadBodyIsMultipart(question: seq<Byte>, jpeg: seq<Byte>)
    ensures UploadBody(question, jpeg)
         == MultipartBody(BoundaryBytes, QuestionPart(question), [FilePart(jpeg)], true)
  {
    var qd := Ascii(QuestionDisposition);
    var fd := Ascii(FileDisposition);
    var ct := Ascii(JpegContentType);
    assert FieldLines([QuestionDisposition]) == qd + CrlfBytes by {
      assert [QuestionDisposition][1..] == [];
    }
    assert FieldLines([FileDisposition, JpegContentType]) == fd + CrlfBytes + ct + CrlfBytes by {
      assert [FileDisposition, JpegContentType][1..] == [JpegContentType];
      assert [JpegContentType][1..] == [];
      assert FieldLines([JpegContentType]) == ct + CrlfBytes;
    }
    assert Encapsulations(BoundaryBytes, [FilePart(jpeg)])
        == Delimiter(BoundaryBytes) + CrlfBytes + PartBytes(FilePart(jpeg)) by {
      assert [FilePart(jpeg)][1..] == [];
    }
  }
}
