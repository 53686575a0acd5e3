/**
 * FileContent: the content of a file as the connector's messages carry it, either
 * base64 text or plain text, and the helpers that turn streams into content and back.
 */
module FileContentModel {
  import opened Wrappers
  import opened Basics
  import opened Streams
  import Base64Codec
  import Utf8Codec

  /**
   * The FileType enum. A request can bind any integer to it; Undefined holds
   * one that names neither member.
   */
  datatype FileType = Text | Binary | Undefined(code: int)

  /** The ContentTransferEncoding enum: None (EncodingNone here) and Base64. */
  datatype ContentTransferEncoding = EncodingNone | EncodingBase64

  /** A FileContent object; a None content is the C# null. */
  datatype FileContent = FileContent(content: Option<string>, contentTransferEncoding: ContentTransferEncoding)

  /** ContentNullException and ContentInvalidBase64Exception. */
  datatype ContentError = ContentNull | ContentInvalidBase64

  /** The ArgumentNullException of the read helpers. */
  datatype StreamError = StreamArgumentNull

  /** GetEncodingBasedOnFileType: binary files travel as base64, everything else as text. */
  function GetEncodingBasedOnFileType(fileType: FileType): (r: ContentTransferEncoding)
    ensures r == EncodingBase64 <==> fileType == Binary
  {
    match fileType
    case Text => EncodingNone
    case Binary => EncodingBase64
    case Undefined(_) => EncodingNone
  }

  /** The Content string the stream constructor stores for the bytes it reads. */
  function ContentOf(bytes: seq<byte>, encoding: ContentTransferEncoding): string
  {
    if encoding == EncodingBase64 then Base64Codec.Encode(bytes) else Utf8Codec.ReadText(bytes)
  }

  /** The bytes GetStream writes for a content, or the exception it throws. */
  function StreamBytes(fc: FileContent): (r: Result<seq<byte>, ContentError>)
    ensures r == Failure(ContentNull) <==> fc.content.None?
    ensures r == Failure(ContentInvalidBase64) <==>
      fc.content.Some? && fc.contentTransferEncoding == EncodingBase64 && Base64Codec.Decode(fc.content.value).None?
  {
    match fc.content
    case None => Failure(ContentNull)
    case Some(text) =>
      if fc.contentTransferEncoding == EncodingBase64 then
        match Base64Codec.Decode(text)
        case None => Failure(ContentInvalidBase64)
        case Some(bytes) => Success(bytes)
      else Success(Utf8Codec.Encode(text))
  }

  /**
   * FileContent.GetStream: a fresh seekable MemoryStream at position 0 holding the
   * decoded bytes, or the content error.
   */
  method GetStream(fc: FileContent) returns (r: Result<Stream, ContentError>)
    ensures r.Success? <==> StreamBytes(fc).Success?
    ensures r.Failure? ==> r.error == StreamBytes(fc).error
    ensures r.Success? ==>
      && fresh(r.value) && r.value.Valid() && r.value.isOpen && r.value.seekable
      && r.value.readLimit == 0 && r.value.position == 0 && r.value.data == StreamBytes(fc).value
  {
    var stream := new Stream([], true, 0);
    if fc.content.Some? {
      if fc.contentTransferEncoding == EncodingBase64 {
        var decoded := Base64Codec.Decode(fc.content.value);
        if decoded.None? {
          return Failure(ContentInvalidBase64);
        }
        stream.Write(decoded.value);
      } else {
        stream.Write(Utf8Codec.Encode(fc.content.value));
      }
    } else {
      return Failure(ContentNull);
    }
    stream.Seek(0);
    return Success(stream);
  }

  /** The buffer growth step: a buffer twice as long holding the old bytes and then b. */
  method GrowBuffer(readBuffer: array<byte>, b: byte) returns (temp: array<byte>)
    requires readBuffer.Length > 0
    ensures fresh(temp) && temp.Length == readBuffer.Length * 2
    ensures temp[..readBuffer.Length + 1] == readBuffer[..] + [b]
  {
    temp := new byte[readBuffer.Length * 2];
    forall i | 0 <= i < readBuffer.Length {
      temp[i] := readBuffer[i];
    }
    temp[readBuffer.Length] := b;
  }

  /** The final trim: the buffer itself when it is exactly full, otherwise a copy of its first n bytes. */
  method TrimBuffer(readBuffer: array<byte>, n: nat) returns (buffer: array<byte>)
    requires n <= readBuffer.Length
    ensures buffer[..] == readBuffer[..n]
  {
    buffer := readBuffer;
    if readBuffer.Length != n {
      buffer := new byte[n];
      forall i | 0 <= i < n {
        buffer[i] := readBuffer[i];
      }
    }
  }

  /**
   * The step taken when the bytes read fill the buffer: when one more byte can be
   * read, the buffer is doubled and that byte stored after the others.
   */
  method GrowIfFull(stream: Stream, readBuffer: array<byte>, totalBytesRead: nat, ghost start: nat)
      returns (buffer: array<byte>, total: nat)
    requires stream.Valid() && stream.isOpen
    requires totalBytesRead <= readBuffer.Length && readBuffer.Length > 1
    requires start + totalBytesRead == stream.position
    requires readBuffer[..totalBytesRead] == stream.data[start..stream.position]
    modifies stream`position
    ensures stream.Valid() && stream.isOpen
    ensures (buffer == readBuffer || fresh(buffer)) && buffer.Length >= readBuffer.Length
    ensures totalBytesRead <= total <= buffer.Length && start + total == stream.position
    ensures total == buffer.Length ==> stream.position == |stream.data|
    ensures buffer[..total] == stream.data[start..stream.position]
  {
    buffer, total := readBuffer, totalBytesRead;
    if totalBytesRead == readBuffer.Length {
      var nextByte := stream.ReadByte();
      if nextByte != -1 {
        buffer := GrowBuffer(readBuffer, nextByte);
        assert stream.data[start..stream.position] == stream.data[start..stream.position - 1] + [nextByte];
        total := totalBytesRead + 1;
      }
    }
  }

  /**
   * The read loop of ReadStreamAsByteArray: reads into a 4096-byte buffer, growing it
   * as GrowIfFull does, until Read returns 0.
   */
  method ReadIntoBuffer(stream: Stream) returns (readBuffer: array<byte>, totalBytesRead: nat)
    requires stream.Valid() && stream.isOpen
    modifies stream`position
    ensures stream.Valid() && stream.isOpen && stream.position == |stream.data|
    ensures fresh(readBuffer) && totalBytesRead <= readBuffer.Length
    ensures readBuffer[..totalBytesRead] == stream.data[old(stream.position)..]
  {
    ghost var p0 := stream.position;
    readBuffer := new byte[4096];
    totalBytesRead := 0;
    var bytesRead := stream.Read(readBuffer, totalBytesRead, readBuffer.Length - totalBytesRead);
    while bytesRead > 0
      invariant stream.Valid() && stream.isOpen
      invariant fresh(readBuffer) && readBuffer.Length >= 4096
      invariant totalBytesRead + bytesRead <= readBuffer.Length
      invariant stream.position == p0 + totalBytesRead + bytesRead
      invariant readBuffer[..totalBytesRead + bytesRead] == stream.data[p0..stream.position]
      invariant bytesRead == 0 ==> stream.position == |stream.data|
      decreases |stream.data| - p0 - totalBytesRead
    {
      readBuffer, totalBytesRead, bytesRead := ReadMore(stream, readBuffer, totalBytesRead + bytesRead, p0);
    }
  }

  /** One turn of the read loop: grow a full buffer, then read into the space left. */
  method ReadMore(stream: Stream, readBuffer: array<byte>, totalBytesRead: nat, ghost start: nat)
      returns (buffer: array<byte>, total: nat, bytesRead: nat)
    requires stream.Valid() && stream.isOpen
    requires totalBytesRead <= readBuffer.Length && readBuffer.Length > 1
    requires start + totalBytesRead == stream.position
    requires readBuffer[..totalBytesRead] == stream.data[start..stream.position]
    modifies stream`position, readBuffer
    ensures stream.Valid() && stream.isOpen
    ensures (buffer == readBuffer || fresh(buffer)) && buffer.Length >= readBuffer.Length
    ensures totalBytesRead <= total && total + bytesRead <= buffer.Length
    ensures stream.position == start + total + bytesRead
    ensures buffer[..total + bytesRead] == stream.data[start..stream.position]
    ensures bytesRead == 0 ==> stream.position == |stream.data|
  {
    buffer, total := GrowIfFull(stream, readBuffer, totalBytesRead, start);
    ghost var mid := stream.position;
    bytesRead := stream.Read(buffer, total, buffer.Length - total);
    assert stream.data[start..stream.position] == stream.data[start..mid] + stream.data[mid..stream.position];
  }

  /**
   * ReadStreamAsByteArray: the rest of the stream, as the read loop collects it and
   * the final trim cuts it; a seekable stream ends where it started.
   */
  method ReadStreamAsByteArray(stream: Stream?) returns (r: Result<seq<byte>, StreamError>)
    requires stream != null ==> stream.Valid() && stream.isOpen
    modifies stream
    ensures stream == null ==> r == Failure(StreamArgumentNull)
    ensures stream != null ==> r == Success(old(stream.data)[old(stream.position)..])
    ensures stream != null ==> stream.data == old(stream.data) && stream.isOpen && stream.Valid()
    ensures stream != null ==> stream.position == if stream.seekable then old(stream.position) else |stream.data|
  {
    if stream == null {
      return Failure(StreamArgumentNull);
    }
    var originalPosition := 0;
    if stream.CanSeek() {
      originalPosition := stream.position;
    }
    var readBuffer, totalBytesRead := ReadIntoBuffer(stream);
    var buffer := TrimBuffer(readBuffer, totalBytesRead);
    if stream.CanSeek() {
      stream.Seek(originalPosition);
    }
    return Success(buffer[..]);
  }

  /**
   * ReadStreamAsString: decodes the rest of the stream as UTF-8 text. The reader
   * disposes the stream, so the position is not restored afterwards.
   */
  method ReadStreamAsString(stream: Stream?) returns (r: Result<string, StreamError>)
    requires stream != null ==> stream.Valid() && stream.isOpen
    modifies stream
    ensures stream == null ==> r == Failure(StreamArgumentNull)
    ensures stream != null ==> r == Success(Utf8Codec.ReadText(old(stream.data)[old(stream.position)..]))
    ensures stream != null ==> stream.data == old(stream.data) && !stream.isOpen && stream.position == |stream.data|
  {
    if stream == null {
      return Failure(StreamArgumentNull);
    }
    var bytes := stream.ReadToEnd();
    var text := Utf8Codec.ReadText(bytes);
    // Disposing the reader disposes the stream: CanSeek is false from here on,
    // so the restoring of the original position in the finally block never happens.
    stream.Dispose();
    return Success(text);
  }

  /** The FileContent(stream, encoding) constructor. */
  method FromStream(stream: Stream?, encoding: ContentTransferEncoding) returns (r: Result<FileContent, StreamError>)
    requires stream != null ==> stream.Valid() && stream.isOpen
    modifies stream
    ensures stream == null ==> r == Failure(StreamArgumentNull)
    ensures stream != null ==>
      r == Success(FileContent(Some(ContentOf(old(stream.data)[old(stream.position)..], encoding)), encoding))
  {
    if encoding == EncodingBase64 {
      var bytes := ReadStreamAsByteArray(stream);
      if bytes.Failure? {
        return Failure(bytes.error);
      }
      return Success(FileContent(Some(Base64Codec.Encode(bytes.value)), encoding));
    } else {
      var text := ReadStreamAsString(stream);
      if text.Failure? {
        return Failure(text.error);
      }
      return Success(FileContent(Some(text.value), encoding));
    }
  }

  /** Base64 content built from bytes gives exactly those bytes back. */
  lemma Base64RoundTrip(bytes: seq<byte>)
    ensures StreamBytes(FileContent(Some(ContentOf(bytes, EncodingBase64)), EncodingBase64)) == Success(bytes)
  {
    Base64Codec.DecodeEncode(bytes);
  }

  /**
   * Text content is written as its UTF-8 bytes, and reading those bytes back as text
   * gives the content again unless it begins with U+FEFF.
   */
  lemma TextRoundTrip(text: string)
    requires text == [] || text[0] != Utf8Codec.ByteOrderMark
    ensures StreamBytes(FileContent(Some(text), EncodingNone)) == Success(Utf8Codec.Encode(text))
    ensures ContentOf(Utf8Codec.Encode(text), EncodingNone) == text
  {
    Utf8Codec.TextRoundTrip(text);
  }
}
