/** The HTTP shapes the upload code produces and consumes: multipart form entries,
    the `Content-Range` header of section 4.2 of RFC 7233, requests, responses, and
    the repository's `fetch` as a recorded request log answered by a server oracle. */
module Http {
  import opened Text

  /** An error or a value, as a rejected or fulfilled promise. */
  datatype Result<T> = Ok(value: T) | Err(message: string)

  /** The value of one multipart form entry: a text, the bytes `[start, end)` of the
      file being uploaded (`File.slice(start, end)`), or the whole file. */
  datatype FormValue = Text(text: string) | Slice(start: int, end: int) | WholeFile

  datatype FormEntry = FormEntry(name: string, value: FormValue)

  /** `Content-Range: bytes first-last/complete`. */
  datatype ContentRange = ContentRange(first: int, last: int, complete: int)

  /** The header text, as the template literal in the source renders it. */
  function RangeText(h: ContentRange): (s: string)
    ensures |s| > 6 && s[..6] == "bytes "
  {
    "bytes " + (IntText(h.first) + ("-" + (IntText(h.last) + ("/" + IntText(h.complete)))))
  }

  /** The header text determines the range: different ranges are never rendered as
      the same `Content-Range`, so the text carries exactly `first`, `last` and
      `complete`. */
  lemma RangeTextInjective(h1: ContentRange, h2: ContentRange)
    ensures RangeText(h1) == RangeText(h2) ==> h1 == h2
  {
    if RangeText(h1) == RangeText(h2) {
      var u1 := "/" + IntText(h1.complete);
      var u2 := "/" + IntText(h2.complete);
      var t1 := "-" + (IntText(h1.last) + u1);
      var t2 := "-" + (IntText(h2.last) + u2);
      CancelPrefix("bytes ", IntText(h1.first) + t1, IntText(h2.first) + t2);
      IntTextPrefix(h1.first, t1, h2.first, t2);
      CancelPrefix("-", IntText(h1.last) + u1, IntText(h2.last) + u2);
      IntTextPrefix(h1.last, u1, h2.last, u2);
      CancelPrefix("/", IntText(h1.complete), IntText(h2.complete));
      IntTextInjective(h1.complete, h2.complete);
    }
  }

  /** Section 4.2 of RFC 7233: a byte-range-resp is invalid when its last-byte-pos is
      below its first-byte-pos or the complete-length is not above the last-byte-pos. */
  predicate ValidRange(h: ContentRange)
  {
    0 <= h.first <= h.last < h.complete
  }

  /** The headers of an upload request: none, or `Content-Range` with
      `Content-Disposition: attachment; filename="<fileName>"`. */
  datatype Headers = NoHeaders | ChunkHeaders(range: ContentRange, fileName: string)

  /** The upload endpoint of a parent content (`getUploadUrl`); the path joining behind
      it is not modelled, only that the address is determined by the parent path. */
  datatype Url = UploadUrl(parentPath: string)

  /** A `POST` with `credentials: "include"`, the only kind of request the core sends. */
  datatype Request = Post(url: Url, headers: Headers, form: seq<FormEntry>)

  /** What `fetch` resolves to: `ok`, `statusText` and the body that `text()` returns. */
  datatype Response = Response(ok: bool, statusText: string, body: string)

  /** What `json()` yields: the body's JSON document, or the `{}` the chunked loop
      starts from. */
  datatype Json = EmptyObject | Parsed(document: string)

  /** A `FormData` under construction: entries in the order they were appended. */
  class FormData {
    var entries: seq<FormEntry>

    constructor ()
      ensures entries == []
    {
      entries := [];
    }

    method Append(name: string, value: FormValue)
      modifies this
      ensures entries == old(entries) + [FormEntry(name, value)]
    {
      entries := entries + [FormEntry(name, value)];
    }
  }

  /** The repository handle as the upload code sees it: its configured chunk size and
      its `fetch`. Every request sent is recorded in `sent`; the response is whatever
      `server` answers to the history that ends with that request. */
  class Repository {
    const chunkSize: int
    const server: seq<Request> -> Response
    var sent: seq<Request>

    constructor (chunkSize: int, server: seq<Request> -> Response)
      ensures this.chunkSize == chunkSize && this.server == server && sent == []
    {
      this.chunkSize := chunkSize;
      this.server := server;
      sent := [];
    }

    method Fetch(request: Request) returns (response: Response)
      modifies this
      ensures sent == old(sent) + [request]
      ensures response == server(sent)
    {
      sent := sent + [request];
      response := server(sent);
    }
  }
}
