/** `Upload`: sending one file to the repository, in a single request or with the
    chunked protocol. Each operation is a method over the `Repository` handle that is
    proved to send exactly the requests, and return exactly the result, that a
    specification function computes from the options and the server's answers; the
    lemmas below state what those requests and results are. */
module Upload {
  import opened Text
  import opened Http
  import opened ChunkPlan

  /** The file being uploaded: its name and its length in bytes. */
  datatype FileInfo = FileInfo(name: string, size: nat)

  /** `IUploadFileOptions`: the file and where and how to store it. */
  datatype UploadOptions = UploadOptions(
    file: FileInfo,
    parentPath: string,
    overwrite: bool,
    binaryPropertyName: string,
    contentTypeName: string)

  /** The chunk token sent when no chunked session is in use. */
  const NoChunkToken: string := "0*0*False*False"

  /** The fields `getFormDataFromOptions` appends, in order. */
  function FixedFields(o: UploadOptions): seq<FormEntry>
  {
    [ FormEntry("ChunkToken", Text(NoChunkToken)),
      FormEntry("FileName", Text(o.file.name)),
      FormEntry("Overwrite", Text(BoolText(o.overwrite))),
      FormEntry("PropertyName", Text(o.binaryPropertyName)),
      FormEntry("FileLength", Text(Decimal(o.file.size))),
      FormEntry("ContentType", Text(o.contentTypeName)) ]
  }

  /** The one request of a non-chunked upload: the fixed fields and the whole file. */
  function SingleRequest(o: UploadOptions): Request
  {
    Post(UploadUrl(o.parentPath), NoHeaders, FixedFields(o) + [FormEntry(o.file.name, WholeFile)])
  }

  /** The initiating request of a chunked upload: the fixed fields, bytes `[0, c)`,
      `UseChunk=true` and `create=1`, with header `bytes 0-(c-1)/size`. */
  function InitRequest(o: UploadOptions, c: int): Request
  {
    Post(UploadUrl(o.parentPath), ChunkHeaders(InitRange(c, o.file.size), o.file.name),
         FixedFields(o) + [FormEntry(o.file.name, Slice(0, c)), FormEntry("UseChunk", Text("true")), FormEntry("create", Text("1"))])
  }

  /** Continuation `i` of a chunked upload: the file length, the session's token and
      the bytes of range `i`, with the matching `Content-Range`. */
  function ContinuationRequest(o: UploadOptions, c: int, token: string, i: nat): Request
    requires c > 0
  {
    Post(UploadUrl(o.parentPath), ChunkHeaders(ChunkRange(i, c, o.file.size), o.file.name),
         [ FormEntry("FileLength", Text(Decimal(o.file.size))),
           FormEntry("ChunkToken", Text(token)),
           FormEntry(o.file.name, Slice(ChunkStart(i, c), ChunkEnd(i, c, o.file.size))) ])
  }

  /** What the loop body assembles for index `i` is continuation `i`. */
  lemma ContinuationBuilt(o: UploadOptions, c: int, token: string, i: nat, start: int, end: int, form: seq<FormEntry>)
    requires c > 0 && start == i * c
    requires end == if start + c > o.file.size then o.file.size else start + c
    requires form == [FormEntry("FileLength", Text(Decimal(o.file.size)))]
      + [FormEntry("ChunkToken", Text(token))] + [FormEntry(o.file.name, Slice(start, end))]
    ensures Post(UploadUrl(o.parentPath), ChunkHeaders(ContentRange(start, end - 1, o.file.size), o.file.name), form)
      == ContinuationRequest(o, c, token, i)
  {
  }

  /** The continuations `i, i + 1, .., n` of the loop `for (i = 0; i <= n; i++)`, as
      they would be sent if none failed. */
  function ContinuationsFrom(o: UploadOptions, c: int, token: string, i: nat): seq<Request>
    requires c > 0
    decreases ChunkCount(o.file.size, c) + 1 - i
  {
    if i > ChunkCount(o.file.size, c) then []
    else [ContinuationRequest(o, c, token, i)] + ContinuationsFrom(o, c, token, i + 1)
  }

  /** All continuations of one chunked upload. */
  function Continuations(o: UploadOptions, c: int, token: string): seq<Request>
    requires c > 0
  {
    ContinuationsFrom(o, c, token, 0)
  }

  /** The requests one call sent, in order, and how the call ended. */
  datatype Run = Run(sent: seq<Request>, result: Result<Json>)

  /** Sending `requests` one after another after `history`, each awaited: the first
      response that is not ok ends the call with its status text; otherwise the result
      is the JSON of the last response (`last` when there is none). */
  function SendInOrder(requests: seq<Request>, server: seq<Request> -> Response,
                       history: seq<Request>, last: Json): Run
    decreases |requests|
  {
    if requests == [] then Run([], Ok(last))
    else
      var response := server(history + [requests[0]]);
      if !response.ok then Run([requests[0]], Err(response.statusText))
      else
        var rest := SendInOrder(requests[1..], server, history + [requests[0]], Parsed(response.body));
        Run([requests[0]] + rest.sent, rest.result)
  }

  /** One step of `SendInOrder` after an ok response: the call's requests are the
      first one followed by those of the rest. */
  lemma SendInOrderStep(requests: seq<Request>, server: seq<Request> -> Response,
                        history: seq<Request>, last: Json, before: seq<Request>)
    requires requests != [] && server(history + [requests[0]]).ok
    ensures var rest := SendInOrder(requests[1..], server, history + [requests[0]], Parsed(server(history + [requests[0]]).body));
      && before + SendInOrder(requests, server, history, last).sent == (before + [requests[0]]) + rest.sent
      && SendInOrder(requests, server, history, last).result == rest.result
  {
  }

  /** One step of `SendInOrder` after a response that is not ok: the call ends there. */
  lemma SendInOrderStop(requests: seq<Request>, server: seq<Request> -> Response,
                        history: seq<Request>, last: Json, before: seq<Request>)
    requires requests != [] && !server(history + [requests[0]]).ok
    ensures before + SendInOrder(requests, server, history, last).sent == before + [requests[0]]
    ensures SendInOrder(requests, server, history, last).result == Err(server(history + [requests[0]]).statusText)
  {
  }

  /** `uploadNonChunked`. */
  function NonChunkedRun(o: UploadOptions, server: seq<Request> -> Response, history: seq<Request>): Run
  {
    var response := server(history + [SingleRequest(o)]);
    Run([SingleRequest(o)], if response.ok then Ok(Parsed(response.body)) else Err(response.statusText))
  }

  /** `uploadChunked`: the initiating request, then, if it succeeded, the continuations
      carrying the token its body returned. */
  function ChunkedRun(o: UploadOptions, c: int, server: seq<Request> -> Response, history: seq<Request>): Run
    requires c > 0
  {
    var init := InitRequest(o, c);
    var response := server(history + [init]);
    if !response.ok then Run([init], Err(response.statusText))
    else
      var rest := SendInOrder(Continuations(o, c, response.body), server, history + [init], EmptyObject);
      Run([init] + rest.sent, rest.result)
  }

  /** `file`: the chunked protocol for files at least one chunk long, one request
      otherwise. */
  function FileRun(o: UploadOptions, c: int, server: seq<Request> -> Response, history: seq<Request>): Run
    requires c > 0
  {
    if IsChunkedUploadNeeded(o.file.size, c) then ChunkedRun(o, c, server, history)
    else NonChunkedRun(o, server, history)
  }

  // ---------------------------------------------------------------------------
  // The operations

  /** `getFormDataFromOptions`. */
  method GetFormDataFromOptions(o: UploadOptions) returns (formData: FormData)
    ensures fresh(formData)
    ensures formData.entries == FixedFields(o)
  {
    formData := new FormData();
    formData.Append("ChunkToken", Text(NoChunkToken));
    formData.Append("FileName", Text(o.file.name));
    formData.Append("Overwrite", Text(BoolText(o.overwrite)));
    formData.Append("PropertyName", Text(o.binaryPropertyName));
    formData.Append("FileLength", Text(Decimal(o.file.size)));
    formData.Append("ContentType", Text(o.contentTypeName));
  }

  /** `uploadNonChunked`: one request; a response that is not ok throws its status
      text, any other resolves to its JSON body. */
  method UploadNonChunked(repo: Repository, o: UploadOptions) returns (result: Result<Json>)
    modifies repo
    ensures repo.sent == old(repo.sent) + NonChunkedRun(o, repo.server, old(repo.sent)).sent
    ensures result == NonChunkedRun(o, repo.server, old(repo.sent)).result
  {
    var formData := GetFormDataFromOptions(o);
    formData.Append(o.file.name, WholeFile);
    var response := repo.Fetch(Post(UploadUrl(o.parentPath), NoHeaders, formData.entries));
    if !response.ok {
      return Err(response.statusText);
    }
    return Ok(Parsed(response.body));
  }

  /** `uploadChunked`: the initiating request; if it is not ok the call throws its
      status text, otherwise its body is the chunk token and the continuation loop
      follows. */
  method UploadChunked(repo: Repository, o: UploadOptions) returns (result: Result<Json>)
    requires repo.chunkSize > 0
    modifies repo
    ensures var run := ChunkedRun(o, repo.chunkSize, repo.server, old(repo.sent));
      repo.sent == old(repo.sent) + run.sent && result == run.result
  {
    var c := repo.chunkSize;
    var size := o.file.size;
    var uploadPath := UploadUrl(o.parentPath);

    var formData := GetFormDataFromOptions(o);
    formData.Append(o.file.name, Slice(0, c));
    formData.Append("UseChunk", Text("true"));
    formData.Append("create", Text("1"));
    var initRequest := Post(uploadPath, ChunkHeaders(ContentRange(0, c - 1, size), o.file.name), formData.entries);
    assert initRequest == InitRequest(o, c);
    var initResponse := repo.Fetch(initRequest);
    if !initResponse.ok {
      return Err(initResponse.statusText);
    }

    var chunkToken := initResponse.body;
    ghost var afterInit := repo.sent;
    result := SendContinuations(repo, o, chunkToken);
    assert repo.sent == old(repo.sent) + ([InitRequest(o, c)] + (repo.sent[|afterInit|..]));
  }

  /** The loop of `uploadChunked` (`for (i = 0; i <= chunkCount; i++)`): continuation
      `i` carries bytes `[i * c, min(i * c + c, size))`, the file length and the token;
      an ok response replaces the last JSON read, any other throws its status text. */
  method SendContinuations(repo: Repository, o: UploadOptions, chunkToken: string) returns (result: Result<Json>)
    requires repo.chunkSize > 0
    modifies repo
    ensures var run := SendInOrder(Continuations(o, repo.chunkSize, chunkToken), repo.server, old(repo.sent), EmptyObject);
      repo.sent == old(repo.sent) + run.sent && result == run.result
  {
    var c := repo.chunkSize;
    var size := o.file.size;
    var chunkCount := size / c;
    var uploadPath := UploadUrl(o.parentPath);
    var lastResponseContent := EmptyObject;
    ghost var total := SendInOrder(Continuations(o, c, chunkToken), repo.server, repo.sent, EmptyObject);

    var i := 0;
    while i <= chunkCount
      invariant 0 <= i <= chunkCount + 1
      invariant var rest := SendInOrder(ContinuationsFrom(o, c, chunkToken, i), repo.server, repo.sent, lastResponseContent);
        repo.sent + rest.sent == old(repo.sent) + total.sent && rest.result == total.result
    {
      var start := i * c;
      var end := start + c;
      end := if end > size then size else end;

      var chunkFormData := new FormData();
      chunkFormData.Append("FileLength", Text(Decimal(size)));
      chunkFormData.Append("ChunkToken", Text(chunkToken));
      chunkFormData.Append(o.file.name, Slice(start, end));

      var request := Post(uploadPath, ChunkHeaders(ContentRange(start, end - 1, size), o.file.name), chunkFormData.entries);
      ContinuationBuilt(o, c, chunkToken, i, start, end, chunkFormData.entries);
      ghost var pending := ContinuationsFrom(o, c, chunkToken, i);
      assert pending[0] == request && pending[1..] == ContinuationsFrom(o, c, chunkToken, i + 1);
      ghost var before := repo.sent;
      var lastResponse := repo.Fetch(request);
      if lastResponse.ok {
        SendInOrderStep(pending, repo.server, before, lastResponseContent, before);
        lastResponseContent := Parsed(lastResponse.body);
      } else {
        SendInOrderStop(pending, repo.server, before, lastResponseContent, before);
        return Err(lastResponse.statusText);
      }
      i := i + 1;
    }
    assert ContinuationsFrom(o, c, chunkToken, i) == [];
    return Ok(lastResponseContent);
  }

  /** `file`: dispatch on `isChunkedUploadNeeded`. */
  method File(repo: Repository, o: UploadOptions) returns (result: Result<Json>)
    requires repo.chunkSize > 0
    modifies repo
    ensures repo.sent == old(repo.sent) + FileRun(o, repo.chunkSize, repo.server, old(repo.sent)).sent
    ensures result == FileRun(o, repo.chunkSize, repo.server, old(repo.sent)).result
  {
    if IsChunkedUploadNeeded(o.file.size, repo.chunkSize) {
      result := UploadChunked(repo, o);
    } else {
      result := UploadNonChunked(repo, o);
    }
  }

  /** `textAsFile`: upload a text as a file named `fileName`, whose length is the
      text's UTF-8 byte length. */
  method TextAsFile(repo: Repository, text: string, fileName: string, parentPath: string,
                    overwrite: bool, binaryPropertyName: string, contentTypeName: string)
    returns (result: Result<Json>)
    requires repo.chunkSize > 0
    modifies repo
    ensures var o := UploadOptions(FileInfo(fileName, Utf8Length(text)), parentPath, overwrite, binaryPropertyName, contentTypeName);
      repo.sent == old(repo.sent) + FileRun(o, repo.chunkSize, repo.server, old(repo.sent)).sent
      && result == FileRun(o, repo.chunkSize, repo.server, old(repo.sent)).result
  {
    var o := UploadOptions(FileInfo(fileName, Utf8Length(text)), parentPath, overwrite, binaryPropertyName, contentTypeName);
    result := File(repo, o);
  }
}

/** What the upload operations send and return, stated over their specification
    functions (the methods above are proved equal to them). */
module UploadProperties {
  import opened Text
  import opened Http
  import opened ChunkPlan
  import opened Upload

  /** The response to the `j`-th request of `sent`, sent after `history`. */
  function ReplyTo(server: seq<Request> -> Response, history: seq<Request>, sent: seq<Request>, j: nat): Response
    requires j < |sent|
  {
    server(history + sent[..j + 1])
  }

  /** Sending `r0` and then `rest` after `history`: the replies to `rest` are those
      it gets after `history + [r0]`. */
  lemma RepliesAfterFirst(server: seq<Request> -> Response, history: seq<Request>, r0: Request, rest: seq<Request>)
    ensures ReplyTo(server, history, [r0] + rest, 0) == server(history + [r0])
    ensures forall j :: 1 <= j < |rest| + 1 ==>
      ReplyTo(server, history, [r0] + rest, j) == ReplyTo(server, history + [r0], rest, j - 1)
  {
    var sent := [r0] + rest;
    assert sent[..1] == [r0];
    forall j | 1 <= j < |rest| + 1
      ensures ReplyTo(server, history, sent, j) == ReplyTo(server, history + [r0], rest, j - 1)
    {
      assert history + sent[..j + 1] == (history + [r0]) + rest[..j];
    }
  }

  /** Sequential sending: the requests sent are a prefix of those planned (at least one
      when any is planned); every one but the last was answered ok; the call fails
      exactly when the last one was not ok, with its status text; and it succeeds only
      after sending all of them, with the JSON of the last response. */
  lemma {:induction false} SendInOrderSpec(requests: seq<Request>, server: seq<Request> -> Response,
                                           history: seq<Request>, last: Json)
    ensures var run := SendInOrder(requests, server, history, last);
      && |run.sent| <= |requests| && run.sent == requests[..|run.sent|]
      && (requests != [] ==> run.sent != [])
      && (forall j :: 0 <= j < |run.sent| - 1 ==> ReplyTo(server, history, run.sent, j).ok)
      && (run.result.Err? <==> run.sent != [] && !ReplyTo(server, history, run.sent, |run.sent| - 1).ok)
      && (run.result.Err? ==> run.result.message == ReplyTo(server, history, run.sent, |run.sent| - 1).statusText)
      && (run.result.Ok? ==> run.sent == requests)
      && (run.result.Ok? && requests != [] ==> run.result.value == Parsed(ReplyTo(server, history, run.sent, |run.sent| - 1).body))
      && (requests == [] ==> run.result == Ok(last))
    decreases |requests|
  {
    if requests != [] {
      var r0 := requests[0];
      var response := server(history + [r0]);
      var run := SendInOrder(requests, server, history, last);
      if response.ok {
        var h1 := history + [r0];
        var rest := SendInOrder(requests[1..], server, h1, Parsed(response.body));
        SendInOrderSpec(requests[1..], server, h1, Parsed(response.body));
        assert run.sent == [r0] + rest.sent;
        RepliesAfterFirst(server, history, r0, rest.sent);
        if rest.sent != [] {
          assert ReplyTo(server, history, run.sent, |run.sent| - 1) == ReplyTo(server, h1, rest.sent, |rest.sent| - 1);
        }
        assert run.sent == requests[..|run.sent|];
      } else {
        assert run.sent[..1] == [r0];
        assert ReplyTo(server, history, run.sent, 0) == response;
      }
    }
  }

  /** The continuations list has one request per index `0 .. n`, continuation `k` at
      position `k`. */
  lemma {:induction false} ContinuationsFromAt(o: UploadOptions, c: int, token: string, i: nat)
    requires c > 0 && i <= ChunkCount(o.file.size, c) + 1
    ensures |ContinuationsFrom(o, c, token, i)| == ChunkCount(o.file.size, c) + 1 - i
    ensures forall k :: 0 <= k < |ContinuationsFrom(o, c, token, i)| ==>
      ContinuationsFrom(o, c, token, i)[k] == ContinuationRequest(o, c, token, i + k)
    decreases ChunkCount(o.file.size, c) + 1 - i
  {
    if i <= ChunkCount(o.file.size, c) {
      ContinuationsFromAt(o, c, token, i + 1);
    }
  }

  /** The token the initiating request's response carries, in `history`. */
  function TokenOf(o: UploadOptions, c: int, server: seq<Request> -> Response, history: seq<Request>): string
  {
    server(history + [InitRequest(o, c)]).body
  }

  /** A chunked upload sends the initiating request first, then continuation `j - 1` as
      its `j`-th request, at most `n + 1` of them; if the initiating request is not ok
      nothing else is sent and the call fails with its status text. */
  lemma ChunkedRunShape(o: UploadOptions, c: int, server: seq<Request> -> Response, history: seq<Request>)
    requires c > 0
    ensures var run := ChunkedRun(o, c, server, history);
      && 1 <= |run.sent| <= ChunkCount(o.file.size, c) + 2
      && run.sent[0] == InitRequest(o, c)
      && (forall j :: 1 <= j < |run.sent| ==> run.sent[j] == ContinuationRequest(o, c, TokenOf(o, c, server, history), j - 1))
      && (!server(history + [InitRequest(o, c)]).ok ==>
            run.sent == [InitRequest(o, c)] && run.result == Err(server(history + [InitRequest(o, c)]).statusText))
  {
    var init := InitRequest(o, c);
    var response := server(history + [init]);
    if response.ok {
      var conts := Continuations(o, c, response.body);
      SendInOrderSpec(conts, server, history + [init], EmptyObject);
      ContinuationsFromAt(o, c, response.body, 0);
    }
  }

  /** Failures stop a chunked upload: every request but the last one sent was answered
      ok, and the upload fails exactly when the last one sent was not, with that
      response's status text. So no continuation follows a failed one. */
  lemma ChunkedRunStopsAtFailure(o: UploadOptions, c: int, server: seq<Request> -> Response, history: seq<Request>)
    requires c > 0
    ensures var run := ChunkedRun(o, c, server, history);
      && (forall j :: 0 <= j < |run.sent| - 1 ==> ReplyTo(server, history, run.sent, j).ok)
      && (run.result.Err? <==> !ReplyTo(server, history, run.sent, |run.sent| - 1).ok)
      && (run.result.Err? ==> run.result.message == ReplyTo(server, history, run.sent, |run.sent| - 1).statusText)
  {
    var init := InitRequest(o, c);
    var response := server(history + [init]);
    var run := ChunkedRun(o, c, server, history);
    if response.ok {
      var h1 := history + [init];
      var conts := Continuations(o, c, response.body);
      var rest := SendInOrder(conts, server, h1, EmptyObject);
      SendInOrderSpec(conts, server, h1, EmptyObject);
      ContinuationsFromAt(o, c, response.body, 0);
      assert run.sent == [init] + rest.sent;
      RepliesAfterFirst(server, history, init, rest.sent);
    } else {
      assert run.sent == [init] + [];
      RepliesAfterFirst(server, history, init, []);
    }
  }

  /** A chunked upload succeeds only after sending the initiating request and all
      `n + 1` continuations, and its result is the JSON body of the last response:
      earlier bodies are overwritten. */
  lemma ChunkedRunSuccess(o: UploadOptions, c: int, server: seq<Request> -> Response, history: seq<Request>)
    requires c > 0
    ensures var run := ChunkedRun(o, c, server, history);
      run.result.Ok? ==>
        && |run.sent| == ChunkCount(o.file.size, c) + 2
        && run.result.value == Parsed(ReplyTo(server, history, run.sent, |run.sent| - 1).body)
  {
    var init := InitRequest(o, c);
    var response := server(history + [init]);
    if response.ok {
      var h1 := history + [init];
      var conts := Continuations(o, c, response.body);
      var rest := SendInOrder(conts, server, h1, EmptyObject);
      var run := ChunkedRun(o, c, server, history);
      SendInOrderSpec(conts, server, h1, EmptyObject);
      ContinuationsFromAt(o, c, response.body, 0);
      assert run.sent == [init] + rest.sent;
      RepliesAfterFirst(server, history, init, rest.sent);
    }
  }

  /** Every continuation echoes, unchanged, the token the initiating request returned,
      and carries the file length as `FileLength`. */
  lemma ChunkedRunEchoesToken(o: UploadOptions, c: int, server: seq<Request> -> Response, history: seq<Request>)
    requires c > 0
    ensures var run := ChunkedRun(o, c, server, history);
      forall j :: 1 <= j < |run.sent| ==>
        && FormEntry("ChunkToken", Text(TokenOf(o, c, server, history))) in run.sent[j].form
        && FormEntry("FileLength", Text(Decimal(o.file.size))) in run.sent[j].form
  {
    ChunkedRunShape(o, c, server, history);
    var run := ChunkedRun(o, c, server, history);
    forall j | 1 <= j < |run.sent|
      ensures FormEntry("ChunkToken", Text(TokenOf(o, c, server, history))) in run.sent[j].form
      ensures FormEntry("FileLength", Text(Decimal(o.file.size))) in run.sent[j].form
    {
      assert run.sent[j].form[1] == FormEntry("ChunkToken", Text(TokenOf(o, c, server, history)));
      assert run.sent[j].form[0] == FormEntry("FileLength", Text(Decimal(o.file.size)));
    }
  }

  /** Continuations go out in strictly increasing start order, each one starting where
      the previous one's range ended (`first == previous last + 1`). */
  lemma ChunkedRunStartsIncrease(o: UploadOptions, c: int, server: seq<Request> -> Response, history: seq<Request>)
    requires c > 0
    ensures var run := ChunkedRun(o, c, server, history);
      && (forall j :: 1 <= j < |run.sent| ==>
            (run.sent[j].headers.ChunkHeaders? && run.sent[j].headers.range.first == (j - 1) * c))
      && (forall j, k :: 1 <= j < k < |run.sent| ==>
            run.sent[j].headers.range.first < run.sent[k].headers.range.first)
      && (forall j :: 1 <= j < |run.sent| - 1 ==>
            run.sent[j + 1].headers.range.first == run.sent[j].headers.range.last + 1)
  {
    ChunkedRunShape(o, c, server, history);
    ChunksContiguous(o.file.size, c);
    var run := ChunkedRun(o, c, server, history);
    forall j, k | 1 <= j < k < |run.sent|
      ensures run.sent[j].headers.range.first < run.sent[k].headers.range.first
    {
      StartsIncrease(c, j - 1, k - 1);
    }
    forall j | 1 <= j < |run.sent| - 1
      ensures run.sent[j + 1].headers.range.first == run.sent[j].headers.range.last + 1
    {
      assert j - 1 < ChunkCount(o.file.size, c);
      assert ChunkEnd(j - 1, c, o.file.size) == ChunkStart(j, c);
    }
  }

  /** Chunk 0 goes out twice: once in the initiating request and again as the first
      continuation, which the loop starting at `i = 0` also sends. */
  lemma FirstChunkSentTwice(o: UploadOptions, c: int, server: seq<Request> -> Response, history: seq<Request>)
    requires c > 0 && IsChunkedUploadNeeded(o.file.size, c)
    ensures var run := ChunkedRun(o, c, server, history);
      |run.sent| >= 2 ==>
        && FormEntry(o.file.name, Slice(0, c)) in run.sent[0].form
        && FormEntry(o.file.name, Slice(0, c)) in run.sent[1].form
  {
    ChunkedRunShape(o, c, server, history);
    var run := ChunkedRun(o, c, server, history);
    assert run.sent[0].form[6] == FormEntry(o.file.name, Slice(0, c));
    if |run.sent| >= 2 {
      assert ChunkEnd(0, c, o.file.size) == c;
      assert run.sent[1].form[2] == FormEntry(o.file.name, Slice(0, c));
    }
  }

  /** Every continuation header of a chunked upload is a valid byte range under
      section 4.2 of RFC 7233 except the last of a complete upload when `c` divides the
      file length: that one is `bytes size-(size-1)/size`. */
  lemma ChunkedRunRangeValidity(o: UploadOptions, c: int, server: seq<Request> -> Response, history: seq<Request>)
    requires c > 0
    ensures var run := ChunkedRun(o, c, server, history);
      && (forall j :: 1 <= j < |run.sent| ==>
            (run.sent[j].headers.ChunkHeaders? &&
             (ValidRange(run.sent[j].headers.range) <==> !(j == ChunkCount(o.file.size, c) + 1 && o.file.size % c == 0))))
      && (run.result.Ok? ==>
            (run.sent[|run.sent| - 1].headers.ChunkHeaders? &&
             (ValidRange(run.sent[|run.sent| - 1].headers.range) <==> o.file.size % c != 0)))
  {
    ChunkedRunShape(o, c, server, history);
    ChunkedRunSuccess(o, c, server, history);
    var run := ChunkedRun(o, c, server, history);
    forall j | 1 <= j < |run.sent|
      ensures run.sent[j].headers.ChunkHeaders?
      ensures ValidRange(run.sent[j].headers.range) <==> !(j == ChunkCount(o.file.size, c) + 1 && o.file.size % c == 0)
    {
      ChunkRangeValid(o.file.size, c, j - 1);
    }
  }

  /** The form of a non-chunked upload, and the first part of the initiating request's
      form: the fixed chunk token `0*0*False*False`, the file name, the overwrite flag,
      the binary property name, the file length in decimal and the content type. */
  lemma FixedFieldsContent(o: UploadOptions)
    ensures var fields := FixedFields(o);
      && FormEntry("ChunkToken", Text("0*0*False*False")) in fields
      && FormEntry("FileName", Text(o.file.name)) in fields
      && FormEntry("Overwrite", Text(if o.overwrite then "true" else "false")) in fields
      && FormEntry("PropertyName", Text(o.binaryPropertyName)) in fields
      && FormEntry("ContentType", Text(o.contentTypeName)) in fields
      && fields[4].name == "FileLength" && fields[4].value.Text? && IsDigits(fields[4].value.text)
      && DecimalValue(fields[4].value.text) == o.file.size
  {
    DecimalRoundTrip(o.file.size);
    var fields := FixedFields(o);
    assert fields[0] == FormEntry("ChunkToken", Text("0*0*False*False"));
    assert fields[1] == FormEntry("FileName", Text(o.file.name));
    assert fields[2] == FormEntry("Overwrite", Text(if o.overwrite then "true" else "false"));
    assert fields[3] == FormEntry("PropertyName", Text(o.binaryPropertyName));
    assert fields[5] == FormEntry("ContentType", Text(o.contentTypeName));
  }

  /** The initiating request carries the fixed fields, bytes `[0, c)`, `UseChunk=true`
      and `create=1`, with header `bytes 0-(c-1)/size`. */
  lemma InitRequestContent(o: UploadOptions, c: int)
    ensures var r := InitRequest(o, c);
      && r.url == UploadUrl(o.parentPath)
      && r.headers == ChunkHeaders(ContentRange(0, c - 1, o.file.size), o.file.name)
      && |r.form| >= 6 && r.form[..6] == FixedFields(o)
      && FormEntry(o.file.name, Slice(0, c)) in r.form
      && FormEntry("UseChunk", Text("true")) in r.form
      && FormEntry("create", Text("1")) in r.form
  {
    var r := InitRequest(o, c);
    assert r.form[6] == FormEntry(o.file.name, Slice(0, c));
    assert r.form[7] == FormEntry("UseChunk", Text("true"));
    assert r.form[8] == FormEntry("create", Text("1"));
  }

  /** A non-chunked upload sends exactly one request, with no range header, the fixed
      fields and the whole file; a response that is not ok fails with its status text,
      any other is returned as its body, verbatim. */
  lemma NonChunkedRunSpec(o: UploadOptions, server: seq<Request> -> Response, history: seq<Request>)
    ensures var run := NonChunkedRun(o, server, history);
      && |run.sent| == 1
      && run.sent[0].headers == NoHeaders
      && run.sent[0].form[..6] == FixedFields(o)
      && FormEntry(o.file.name, WholeFile) in run.sent[0].form
      && (run.result.Ok? <==> ReplyTo(server, history, run.sent, 0).ok)
      && (run.result.Ok? ==> run.result.value == Parsed(ReplyTo(server, history, run.sent, 0).body))
      && (run.result.Err? ==> run.result.message == ReplyTo(server, history, run.sent, 0).statusText)
  {
    var run := NonChunkedRun(o, server, history);
    assert run.sent[0].form[6] == FormEntry(o.file.name, WholeFile);
    assert history + run.sent[..1] == history + [SingleRequest(o)];
  }

  /** `file` takes the chunked path exactly when the file is at least one chunk long:
      its first request carries a `Content-Range` header exactly then. */
  lemma FileTakesChunkedPath(o: UploadOptions, c: int, server: seq<Request> -> Response, history: seq<Request>)
    requires c > 0
    ensures var run := FileRun(o, c, server, history);
      && run.sent != []
      && (run.sent[0].headers.ChunkHeaders? <==> o.file.size >= c)
      && (|run.sent| > 1 ==> o.file.size >= c)
  {
    if o.file.size >= c {
      ChunkedRunShape(o, c, server, history);
    }
  }
}
