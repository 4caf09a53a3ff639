# sn-client-core uploads and schema store, in Dafny

This project models two parts of the sensenet client core and proves properties of them.

- The **upload protocol** of `Upload` sends a file to the repository. A file at least one chunk long
  takes the chunked protocol. First an initiating request carries the first chunk and returns a chunk
  token. Then continuation requests `i = 0 .. n`, with `n = floor(size / chunkSize)`, carry the bytes
  `[i*C, min(i*C+C, size))`, each with a `Content-Range` header. A shorter file goes in one request.
  `textAsFile` uploads a text as a file.
- The **drop-tree walker** of `Upload` handles a drop event. With the WebKit entry API and
  `createFolders` set, it re-creates each dropped folder in the repository and uploads each file into the
  folder made for it. With the entry API and `createFolders` not set, it skips folders and uploads only
  the top-level files, into the drop target. Without that API it uploads the dropped files whose type is
  `"file"`.
- **`SchemaStore`** looks up content type schemas by name. The field settings of the parent type are
  appended to the schema's own. An unknown name falls back to `GenericContent`. Results are cached by
  name until `SetSchemas` replaces the list.

Files:

- `text.dfy` (module `Text`): decimal rendering of numbers and UTF-8 length.
- `http.dfy` (module `Http`): form entries, `Content-Range` and the `FormData` class. It also has the
  `Repository` class, whose `Fetch` records each request and answers it through a server oracle.
- `chunk_plan.dfy` (module `ChunkPlan`): the range arithmetic of chunking.
- `upload.dfy`: module `Upload` holds the operations as methods. Each method is proved to send exactly
  the requests, and return exactly the result, that a specification function computes. Module
  `UploadProperties` proves what those requests and results are.
- `drop_walker.dfy`: module `DropWalker` holds the walker's methods and the specification of a walk.
  Module `DropWalkerProperties` proves the walk's properties.
- `schema_store.dfy` (module `Schemas`): the `SchemaStore` class, the lookup it is proved against, and
  lemmas about that lookup.

The network is a function from the history of requests to the reply to the last one. So every
property holds for every server behaviour.

## Model

| member | source | states |
|---|---|---|
| Text.Decimal | src/Repository/Upload.ts:81 | `size.toString()` is a non-empty string of decimal digits with no leading zero |
| Text.DecimalRoundTrip | src/Repository/Upload.ts:81 | reading the `FileLength` text back as a number gives the file size |
| Text.DecimalInjective | src/Repository/Upload.ts:135 | different sizes have different `FileLength` texts |
| Text.IntTextInjective | src/Repository/Upload.ts:144 | two integers whose `toString()` texts are equal are equal, so the text of a header field determines its value |
| Text.BoolText | src/Repository/Upload.ts:79 | `overwrite.toString()` is `"true"` exactly when the flag is set |
| Text.Utf8Length | src/Repository/Upload.ts:46 | the byte length of `new File([text])` is between the number of characters and four times that number |
| Text.Utf8LengthAscii | src/Repository/Upload.ts:46 | a text's file is as many bytes long as it has characters exactly when every character is ASCII |
| Http.RangeTextInjective | src/Repository/Upload.ts:114 | the `Content-Range` text `bytes first-last/complete` determines its three numbers: two different ranges never have the same header text |
| Http.FormData.Append | src/Repository/Upload.ts:77-82 | `append` adds one entry at the end and keeps the earlier entries in order |
| Http.Repository.Fetch | src/Repository/Upload.ts:139-147 | a request is logged after every earlier one, and its response is the server's answer to the whole history |
| ChunkPlan.CountBounds | src/Repository/Upload.ts:101 | `n * C` is the largest multiple of `C` not above the size |
| ChunkPlan.ChunkWithinFile | src/Repository/Upload.ts:127-130 | each continuation range lies inside the file and holds at most `C` bytes; all but the last hold exactly `C` |
| ChunkPlan.ChunksContiguous | src/Repository/Upload.ts:127-130 | the ranges start at 0, each ends where the next begins, and the last ends at the file size |
| ChunkPlan.StartsIncrease | src/Repository/Upload.ts:128 | continuation starts strictly increase with `i` |
| ChunkPlan.ByteInExactlyOneChunk | src/Repository/Upload.ts:127-130 | byte `b` lies in continuation `i` exactly when `i = b / C`, so the ranges cover the file without overlap |
| ChunkPlan.LastChunkEmptyIffDivides | src/Repository/Upload.ts:101-130 | a continuation is empty exactly when it is the last one and `C` divides the size |
| ChunkPlan.ChunkRangeValid | src/Repository/Upload.ts:127-144 | a continuation's header is a valid byte range (section 4.2 of RFC 7233) exactly when it is not that empty last one |
| ChunkPlan.InitRangeValid | src/Repository/Upload.ts:114 | the header `bytes 0-(C-1)/size` of the initiating request is valid exactly when chunking is chosen |
| ChunkPlan.EmptyLastRangeText | src/Repository/Upload.ts:144 | when `C` divides the size, the last header reads `bytes size-(size-1)/size` |
| Upload.GetFormDataFromOptions | src/Repository/Upload.ts:75-84 | a new `FormData` holding exactly the six fixed fields, in order |
| Upload.UploadNonChunked | src/Repository/Upload.ts:86-98 | sends exactly the requests of the non-chunked run after the earlier history and returns its result |
| Upload.UploadChunked | src/Repository/Upload.ts:100-124 | sends the initiating request and then the continuations the chunked run prescribes; a failed initiating request ends the call |
| Upload.SendContinuations | src/Repository/Upload.ts:126-155 | the loop sends the continuations in order, stops at the first response that is not ok, and otherwise returns the last JSON |
| Upload.File | src/Repository/Upload.ts:54-60 | chooses the chunked or the single-request run by `isChunkedUploadNeeded` and performs it |
| Upload.TextAsFile | src/Repository/Upload.ts:45-48 | uploads a file named `fileName` whose size is the text's UTF-8 length |
| UploadProperties.SendInOrderSpec | src/Repository/Upload.ts:139-152 | the requests sent are a prefix of those planned, and every one but the last was answered ok. The call fails exactly when the last was not ok, with its status text. It succeeds only after sending all, with the last body's JSON |
| UploadProperties.ContinuationsFromAt | src/Repository/Upload.ts:127 | the loop plans `n + 1` continuations, with continuation `k` at position `k` |
| UploadProperties.ChunkedRunShape | src/Repository/Upload.ts:105-127 | the initiating request comes first and the `j`-th request is continuation `j - 1`, at most `n + 2` requests in all. A failed initiating request is the only request sent, and the call fails with its status text |
| UploadProperties.ChunkedRunStopsAtFailure | src/Repository/Upload.ts:119-152 | every request but the last sent was answered ok; the upload fails exactly when the last one was not, with its status text |
| UploadProperties.ChunkedRunSuccess | src/Repository/Upload.ts:148-155 | a successful chunked upload sent all `n + 2` requests, and its result is the JSON of the last response |
| UploadProperties.ChunkedRunEchoesToken | src/Repository/Upload.ts:123-137 | every continuation carries, unchanged, the token the initiating response returned, and `FileLength` = size |
| UploadProperties.ChunkedRunStartsIncrease | src/Repository/Upload.ts:127-147 | continuation `j - 1` starts at `(j-1)*C`. Starts strictly increase, and each range starts one past the previous one's last byte |
| UploadProperties.FirstChunkSentTwice | src/Repository/Upload.ts:106-137 | bytes `[0, C)` go out in the initiating request and again in the first continuation |
| UploadProperties.ChunkedRunRangeValidity | src/Repository/Upload.ts:127-147 | every continuation header is valid except the last of a complete upload when `C` divides the size |
| UploadProperties.FixedFieldsContent | src/Repository/Upload.ts:75-84 | the form holds `ChunkToken=0*0*False*False`, `FileName`, `Overwrite`, `PropertyName` and `ContentType`, plus a `FileLength` whose digits denote the size |
| UploadProperties.InitRequestContent | src/Repository/Upload.ts:105-117 | the initiating request carries the fixed fields, bytes `[0, C)`, `UseChunk=true`, `create=1` and header `bytes 0-(C-1)/size` |
| UploadProperties.NonChunkedRunSpec | src/Repository/Upload.ts:86-98 | exactly one request, with no range header and with the fixed fields and the whole file. It succeeds exactly when the response is ok, with the body as JSON; otherwise it fails with the status text |
| UploadProperties.FileTakesChunkedPath | src/Repository/Upload.ts:54-69 | the first request carries a range header exactly when the size is at least the chunk size, and only then is more than one request sent |
| DropWalker.Remote.Perform | src/Repository/Upload.ts:173-180 | an action is logged after every earlier one, and its reply is the repository's answer to the whole history |
| DropWalker.WebkitFileHandler | src/Repository/Upload.ts:159-170 | uploads the file into the current path; it resolves when the upload succeeded and stays pending otherwise |
| DropWalker.WebkitDirectoryHandler | src/Repository/Upload.ts:172-188 | first creates a folder with the entry's name under the current path. If that fails, nothing else is done and the handler rejects with the error. Otherwise the children are walked under the path the repository gave the new folder, with folder creation on; the handler never rejects then, and resolves exactly when that walk resolves |
| DropWalker.WebkitItemListHandler | src/Repository/Upload.ts:190-200 | walks the items in order and performs exactly the actions of the specified walk, with its outcome |
| DropWalker.FromDropEvent | src/Repository/Upload.ts:206-224 | with the entry API it walks the dropped entries. Without it, it uploads the fallback files into the parent path and resolves |
| DropWalkerProperties.WalkItemsAppend | src/Repository/Upload.ts:190-200 | walking `a + b` walks `a`, then `b` only if `a` resolved, so items are handled one at a time in list order |
| DropWalkerProperties.WalkItemsOutcome | src/Repository/Upload.ts:159-200 | every action but the last succeeded, and a walk resolves only if all did. It rejects only on a failed folder creation directly under the current path, or on a `null` top-level entry. It stays pending only after a failed last action or with a `null` entry in the tree |
| DropWalkerProperties.WalkItemOutcome | src/Repository/Upload.ts:159-188 | the same outcome classification for a single file or folder entry |
| DropWalkerProperties.ResolvedIffAllDone | src/Repository/Upload.ts:159-200 | on a tree without `null` entries, a walk resolves exactly when every action it performed succeeded |
| DropWalkerProperties.ResolvedUploadsAllFiles | src/Repository/Upload.ts:190-200 | a resolved walk uploaded the files of the tree in depth-first order: all of them with folder creation on, the top-level ones otherwise |
| DropWalkerProperties.ResolvedItemUploads | src/Repository/Upload.ts:159-188 | a resolved folder or file entry uploaded exactly its own files, in order |
| DropWalkerProperties.NoFoldersWithoutCreateFolders | src/Repository/Upload.ts:193-198 | without `createFolders` every action is a file upload into the current path |
| DropWalkerProperties.WalkTargetsKnown | src/Repository/Upload.ts:172-200 | every action targets the drop target or a folder that an earlier action of the walk created |
| DropWalkerProperties.WalkItemTargetsKnown | src/Repository/Upload.ts:172-188 | within one folder entry, the folder is created before anything is put into it |
| DropWalkerProperties.FolderWalk | src/Repository/Upload.ts:172-188 | a folder entry is created as a folder of the same name under the current path. A failed creation is the only action and rejects with its error. After a creation that gave path `p` the entry's walk cannot reject, and every later action targets `p` or a folder created beneath it |
| DropWalkerProperties.FailedFolderRejects | src/Repository/Upload.ts:192-195 | when the items before a folder resolved and creating that folder fails, the walk of the whole list stops after that creation and rejects with its error |
| DropWalkerProperties.FallbackUploadsExactlyFiles | src/Repository/Upload.ts:213-221 | without the entry API the uploads are exactly those of the dropped files whose type is `"file"`, into the parent path |
| DropWalkerProperties.FallbackUploadsInOrder | src/Repository/Upload.ts:213-221 | without the entry API there is one upload per dropped file whose type is `"file"`, and they come in drop order: the `k`-th such file's upload is at the position given by the number of such files before it |
| Schemas.FindIndex | src/Schemas/SchemaStore.ts:45 | `find` gives the index of the first schema with that name, and nothing when no schema has it |
| Schemas.LookupFuelMono | src/Schemas/SchemaStore.ts:37-57 | a lookup that finishes gives the same schema however much deeper recursion is allowed |
| Schemas.LookupUnique | src/Schemas/SchemaStore.ts:42-44 | any two finished lookups of one name agree, which is what makes the cache consistent |
| Schemas.SchemaStore.constructor | src/Schemas/SchemaStore.ts:8-10 | the store holds the given list and an empty cache |
| Schemas.SchemaStore.SetSchemas | src/Schemas/SchemaStore.ts:16-19 | replaces the list and leaves the cache empty |
| Schemas.SchemaStore.GetSchema | src/Schemas/SchemaStore.ts:29-31 | the lookup by the type's name, with the same guarantees |
| Schemas.SchemaStore.GetSchemaByName | src/Schemas/SchemaStore.ts:37-57 | returns the resolved schema whatever the cache holds, so repeated lookups agree. It leaves the list and every existing cache entry unchanged. It caches a found name under its result and never caches an unknown name |
| Schemas.LookupFollowsChain | src/Schemas/SchemaStore.ts:45-53 | a lookup visits the first schema of the name (or the first `GenericContent` for an unknown name), then for each parent the first schema of that parent's name (or the first `GenericContent`), up to a schema without a parent |
| Schemas.LinkedChainUnique | src/Schemas/SchemaStore.ts:45-53 | a name has at most one such chain, even when the list holds several schemas of one name |
| Schemas.LookupCollectsFields | src/Schemas/SchemaStore.ts:49-54 | the result is the first visited schema with the field settings of all visited schemas, nearest first: own fields, then each ancestor's |
| Schemas.SelfParentDiverges | src/Schemas/SchemaStore.ts:50 | a type naming itself as its parent never resolves |
| Schemas.UnknownWithoutGenericContentDiverges | src/Schemas/SchemaStore.ts:46-48 | an unknown name never resolves when the list has no `GenericContent` |
| Schemas.UnknownFallsBack | src/Schemas/SchemaStore.ts:46-48 | an unknown name resolves exactly as `GenericContent` does, to a schema named `GenericContent` |

## Left out

- `src/Repository/Security.ts`, `src/Repository/UploadResponse.ts`, `src/Models/IUploadProgressInfo.ts` and `src/index.ts` are not part of this model. They are pass-throughs, `parseInt` conversions, a behaviour-free interface and re-exports.
- `src/Repository/RepositoryConfiguration.ts` is not part of this model beyond the `chunkSize` it supplies, which is the `chunkSize` of `Http.Repository`. Its default value is not used.
- `fetch`, the multipart encoding of `FormData` and the bytes `File.slice` returns are not modelled. A request is its URL, headers and form entries; a slice is its byte range.
- `Content-Disposition` quoting is not modelled: the header carries the file name as it is.
- `getUploadUrl` and the path joining behind it are not modelled. The address is `UploadUrl(parentPath)`.
- JSON parsing is not modelled. `json()` of a body is the body's document, and a body that is not JSON is not treated as a failure.
- JavaScript numbers are doubles, but sizes and offsets are modelled as unbounded integers.
- Upload.File: requires a positive chunk size. The source does not check it, and with zero or a negative chunk size every file takes the chunked path. With zero, an empty file gets only the initiating request and the result `{}`, because `0/0` is `NaN` and the loop does not run. A non-empty file gets empty continuations with header `bytes 0--1/size` until a response is not ok, because `size/0` is `Infinity`. With a negative chunk size `C`, the initiating request carries `slice(0, C)`, the file without its last `-C` bytes. An empty file then gets one continuation and a non-empty file none. None of these runs is modelled.
- Upload.UploadChunked: requires a positive chunk size, for the same reason.
- Upload.SendContinuations: requires a positive chunk size, for the same reason.
- Upload.TextAsFile: requires a positive chunk size, for the same reason.
- Text.Utf8Length: covers texts of Unicode scalar values only. A JavaScript string can hold a lone surrogate, which `new File([text])` encodes as U+FFFD in 3 bytes. A Dafny `char` cannot hold one.
- DropWalker.WebkitFileHandler: an upload inside the walker is one action answered by the repository. It is not the request sequence of `Upload.File`.
- The error callbacks of `fileEntry.file` and `readEntries` are not modelled, so reading a dropped entry always succeeds.
- `readEntries` is modelled as returning a folder's children in one batch, which is all the code reads.
- In the fallback, the uploads run unawaited and their interleaving and results are not modelled. Only which uploads start, and in which order, is modelled.
- Schemas.SchemaStore.GetSchemaByName: takes a ghost fuel argument and requires the lookup to finish within it. With a parent cycle, or an unknown name and no `GenericContent`, the source recurses until JavaScript's call stack overflows and the call throws a `RangeError`. The model excludes these calls instead of modelling that error. `SelfParentDiverges` and `UnknownWithoutGenericContentDiverges` show that no fuel is enough for them.
- Schemas.SchemaStore.GetSchema: takes the name of the type's constructor rather than the constructor, and the same ghost fuel argument.
- Schemas.SchemaStore.constructor: takes the schema list. The default list comes from an external package.
- Schemas.SchemaStore.GetSchemaByName: the aliasing of `Object.assign`'s shallow copies is not modelled; schemas are values. On a cache hit the returned copy shares its `FieldSettings` array with the cache entry. On a miss the returned object is the cache entry itself. For a type without a parent, that entry's `FieldSettings` array is also the one in the stored list. So in the source a caller that mutates a returned schema can change later lookups or the list; in the model it cannot.
- A schema keeps only `ContentTypeName`, `ParentTypeName`, `FieldSettings` and `DisplayName`, and a field setting only its name and type. The other attributes are carried unchanged, like `DisplayName`.
