/** The drop-event walker of `Upload`. When `createFolders` is set, folders dropped on
    the page are re-created in the repository and every file in them uploaded into the
    folder made for it; otherwise folders are skipped and only the top-level files are
    uploaded, into the drop target.

    The repository is seen through two actions, creating a folder and uploading a
    file (one `Upload.file` call), each answered by a reply oracle that sees the whole
    history of actions. A walk either settles (resolves or rejects) or, when a failure
    happens inside a `readEntries` or `file` callback, stays pending for ever: the
    promise the handler waits on is neither resolved nor rejected. */
module DropWalker {
  import opened Upload

  /** What `webkitGetAsEntry` gives for one dropped item, and what `readEntries` gives
      for the children of a folder: a file, a folder, or `null` for an item that is not
      a file-system entry. */
  datatype Entry =
    | FileEntry(file: FileInfo)
    | DirectoryEntry(name: string, children: seq<Entry>)
    | NoEntry

  /** The two things the walker asks of the repository: `repository.post` of a
      `Folder` named `name` under `parentPath`, and `Upload.file` of `file` into
      `parentPath`. */
  datatype Action =
    | CreateFolder(name: string, parentPath: string)
    | UploadFile(file: FileInfo, parentPath: string)

  /** The repository's answer to an action: success, with the new folder's path for a
      `CreateFolder`, or a rejection. */
  datatype Reply = Done(path: string) | Failed(message: string)

  /** How a walker promise ends. */
  datatype Settled = Resolved | Rejected(error: string) | Pending

  /** The error reading `isDirectory` or `isFile` of a `null` entry raises. */
  const NotAnEntryError: string := "TypeError: entry is null"

  /** A file of `dataTransfer.files`, with its `type`. */
  datatype DroppedFile = DroppedFile(file: FileInfo, mimeType: string)

  /** Number of entries in a tree, counting each folder and each leaf once. */
  function Size(e: Entry): (n: nat)
    ensures n >= 1
  {
    match e
    case FileEntry(_) => 1
    case DirectoryEntry(_, children) => 1 + SizeAll(children)
    case NoEntry => 1
  }

  function SizeAll(items: seq<Entry>): nat
  {
    if items == [] then 0 else Size(items[0]) + SizeAll(items[1..])
  }

  /** Each item of a list is no larger than the list. */
  lemma {:induction false} SizeOfElement(items: seq<Entry>, i: nat)
    requires i < |items|
    ensures Size(items[i]) <= SizeAll(items)
    decreases i
  {
    if i > 0 {
      SizeOfElement(items[1..], i - 1);
      assert items[1..][i - 1] == items[i];
    }
  }

  /** The actions a walk performs, and how it ends. */
  datatype Walk = Walk(actions: seq<Action>, outcome: Settled)

  /** `webkitItemListHandler`: the items in order, each folder created (when
      `createFolders` holds) and walked, each file uploaded, stopping at the first item
      whose handler does not resolve. `history` is every action performed before. */
  function WalkItems(items: seq<Entry>, path: string, createFolders: bool,
                     reply: seq<Action> -> Reply, history: seq<Action>): Walk
    decreases SizeAll(items), 1
  {
    if items == [] then Walk([], Resolved)
    else AndThen(WalkItem(items[0], path, createFolders, reply, history), items[1..], path, createFolders, reply, history)
  }

  /** Walking `rest` after a walk `w`, if `w` resolved. */
  function AndThen(w: Walk, rest: seq<Entry>, path: string, createFolders: bool,
                   reply: seq<Action> -> Reply, history: seq<Action>): Walk
    decreases SizeAll(rest), 2
  {
    if w.outcome != Resolved then w
    else
      var wr := WalkItems(rest, path, createFolders, reply, history + w.actions);
      Walk(w.actions + wr.actions, wr.outcome)
  }

  /** One item of `webkitItemListHandler`'s loop. A folder is skipped unless
      `createFolders` holds; when its creation fails the handler rejects with that
      error; when walking its children does not resolve, the `readEntries` callback
      never calls `resolve`, so the folder's handler stays pending. A file whose upload
      fails leaves `webkitFileHandler` pending for the same reason. A `null` entry
      rejects with a `TypeError`. */
  function WalkItem(item: Entry, path: string, createFolders: bool,
                    reply: seq<Action> -> Reply, history: seq<Action>): Walk
    decreases Size(item), 0
  {
    match item
    case NoEntry => Walk([], Rejected(NotAnEntryError))
    case FileEntry(f) =>
      var a := UploadFile(f, path);
      Walk([a], if reply(history + [a]).Done? then Resolved else Pending)
    case DirectoryEntry(name, children) =>
      if !createFolders then Walk([], Resolved)
      else
        var a := CreateFolder(name, path);
        var r := reply(history + [a]);
        if r.Failed? then Walk([a], Rejected(r.message))
        else
          var inner := WalkItems(children, r.path, true, reply, history + [a]);
          Walk([a] + inner.actions, if inner.outcome == Resolved then Resolved else Pending)
  }

  /** The fallback without the entry API: every dropped file whose `type` is `"file"`
      is uploaded into `parentPath`, in order; the uploads are not awaited, so their
      failures stop nothing and the call resolves. */
  function FallbackUploads(files: seq<DroppedFile>, parentPath: string): seq<Action>
  {
    if files == [] then []
    else
      var last := files[|files| - 1];
      FallbackUploads(files[..|files| - 1], parentPath)
        + (if last.mimeType == "file" then [UploadFile(last.file, parentPath)] else [])
  }

  /** The repository as the walker uses it: every action performed is recorded, and
      answered by `reply` applied to the history that ends with it. */
  class Remote {
    const reply: seq<Action> -> Reply
    var performed: seq<Action>

    constructor (reply: seq<Action> -> Reply)
      ensures this.reply == reply && performed == []
    {
      this.reply := reply;
      performed := [];
    }

    method Perform(a: Action) returns (r: Reply)
      modifies this
      ensures performed == old(performed) + [a]
      ensures r == reply(performed)
    {
      performed := performed + [a];
      r := reply(performed);
    }
  }

  /** `webkitFileHandler`: upload the entry's file into `path`. */
  method WebkitFileHandler(remote: Remote, file: FileInfo, path: string) returns (outcome: Settled)
    modifies remote
    ensures var w := WalkItem(FileEntry(file), path, true, remote.reply, old(remote.performed));
      remote.performed == old(remote.performed) + w.actions && outcome == w.outcome
  {
    var r := remote.Perform(UploadFile(file, path));
    if r.Done? {
      outcome := Resolved;
    } else {
      outcome := Pending;
    }
  }

  /** What handling a folder entry did, from `before` to `after`: a folder named after
      the entry was created under `path`; a failed creation was the only action and
      rejected with its error; otherwise the children were walked under the path the
      repository gave the new folder, and the outcome is not a rejection and is
      `Resolved` exactly when that walk resolved. */
  predicate FolderHandled(reply: seq<Action> -> Reply, before: seq<Action>, after: seq<Action>,
                          name: string, children: seq<Entry>, path: string, outcome: Settled)
  {
    var a := CreateFolder(name, path);
    var r := reply(before + [a]);
    && |after| > |before|
    && after[|before|] == a
    && (r.Failed? ==> after == before + [a] && outcome == Rejected(r.message))
    && (r.Done? ==>
          var inner := WalkItems(children, r.path, true, reply, before + [a]);
          && after == before + [a] + inner.actions
          && (outcome == Resolved <==> inner.outcome == Resolved)
          && !outcome.Rejected?)
  }

  /** `webkitDirectoryHandler`: create the folder under `path`, then walk its children
      into the new folder's path with folder creation on. */
  method WebkitDirectoryHandler(remote: Remote, name: string, children: seq<Entry>, path: string)
    returns (outcome: Settled)
    modifies remote
    ensures var w := WalkItem(DirectoryEntry(name, children), path, true, remote.reply, old(remote.performed));
      remote.performed == old(remote.performed) + w.actions && outcome == w.outcome
    ensures FolderHandled(remote.reply, old(remote.performed), remote.performed, name, children, path, outcome)
    decreases 1 + SizeAll(children), 0
  {
    var folder := remote.Perform(CreateFolder(name, path));
    if folder.Failed? {
      return Rejected(folder.message);
    }
    var inner := WebkitItemListHandler(remote, children, folder.path, true);
    if inner == Resolved {
      outcome := Resolved;
    } else {
      outcome := Pending;
    }
  }

  /** `webkitItemListHandler`: walk the items in order, awaiting each handler. */
  method WebkitItemListHandler(remote: Remote, items: seq<Entry>, path: string, createFolders: bool)
    returns (outcome: Settled)
    modifies remote
    ensures var w := WalkItems(items, path, createFolders, remote.reply, old(remote.performed));
      remote.performed == old(remote.performed) + w.actions && outcome == w.outcome
    decreases SizeAll(items), 1
  {
    ghost var total := WalkItems(items, path, createFolders, remote.reply, remote.performed);
    var i := 0;
    while i < |items|
      invariant 0 <= i <= |items|
      invariant var rest := WalkItems(items[i..], path, createFolders, remote.reply, remote.performed);
        remote.performed + rest.actions == old(remote.performed) + total.actions
        && rest.outcome == total.outcome
    {
      var item := items[i];
      SizeOfElement(items, i);
      assert items[i..][0] == item && items[i..][1..] == items[i + 1..];
      ghost var before := remote.performed;
      ghost var step := WalkItem(item, path, createFolders, remote.reply, before);
      if item.NoEntry? {
        // reading `isDirectory` or `isFile` of `null` throws
        return Rejected(NotAnEntryError);
      }
      if createFolders && item.DirectoryEntry? {
        var o := WebkitDirectoryHandler(remote, item.name, item.children, path);
        if o != Resolved {
          return o;
        }
      }
      if item.FileEntry? {
        var o := WebkitFileHandler(remote, item.file, path);
        if o != Resolved {
          return o;
        }
      }
      assert remote.performed == before + step.actions;
      i := i + 1;
    }
    outcome := Resolved;
  }

  /** `fromDropEvent`: with the entry API, walk the dropped entries into `parentPath`;
      without it, start an upload of every dropped file whose type is `"file"` and
      resolve without waiting for them. */
  method FromDropEvent(remote: Remote, hasEntryApi: bool, entries: seq<Entry>, files: seq<DroppedFile>,
                       parentPath: string, createFolders: bool) returns (outcome: Settled)
    modifies remote
    ensures hasEntryApi ==>
      var w := WalkItems(entries, parentPath, createFolders, remote.reply, old(remote.performed));
      remote.performed == old(remote.performed) + w.actions && outcome == w.outcome
    ensures !hasEntryApi ==>
      remote.performed == old(remote.performed) + FallbackUploads(files, parentPath) && outcome == Resolved
  {
    if hasEntryApi {
      outcome := WebkitItemListHandler(remote, entries, parentPath, createFolders);
    } else {
      for k := 0 to |files|
        invariant remote.performed == old(remote.performed) + FallbackUploads(files[..k], parentPath)
      {
        assert files[..k + 1][..k] == files[..k];
        if files[k].mimeType == "file" {
          var _ := remote.Perform(UploadFile(files[k].file, parentPath));
        }
      }
      assert files[..|files|] == files;
      outcome := Resolved;
    }
  }
}

/** What a drop walk does: it stops at the first failure and settles according to
    where that failure happened, uploads every file of the dropped tree when it
    resolves, never creates a folder unless asked to, and only ever targets the drop
    target or a folder it has itself created. */
module DropWalkerProperties {
  import opened Upload
  import opened DropWalker

  /** The reply to the `j`-th action of `actions`, performed after `history`. */
  function ReplyAt(reply: seq<Action> -> Reply, history: seq<Action>, actions: seq<Action>, j: nat): Reply
    requires j < |actions|
  {
    reply(history + actions[..j + 1])
  }

  predicate AllDone(reply: seq<Action> -> Reply, history: seq<Action>, actions: seq<Action>)
  {
    forall j :: 0 <= j < |actions| ==> ReplyAt(reply, history, actions, j).Done?
  }

  /** Every action but the last one succeeded. */
  predicate DoneBeforeLast(reply: seq<Action> -> Reply, history: seq<Action>, actions: seq<Action>)
  {
    forall j :: 0 <= j < |actions| - 1 ==> ReplyAt(reply, history, actions, j).Done?
  }

  predicate LastFailed(reply: seq<Action> -> Reply, history: seq<Action>, actions: seq<Action>)
  {
    actions != [] && ReplyAt(reply, history, actions, |actions| - 1).Failed?
  }

  /** No entry of the tree, at any depth, is `null`. */
  predicate Proper(e: Entry)
    decreases Size(e), 0
  {
    match e
    case NoEntry => false
    case FileEntry(_) => true
    case DirectoryEntry(_, children) => ProperAll(children)
  }

  predicate ProperAll(items: seq<Entry>)
    decreases SizeAll(items), 1
  {
    items == [] || (Proper(items[0]) && ProperAll(items[1..]))
  }

  /** The files a walk reaches, in the order it reaches them: every file of the tree
      when folders are created, only the top-level ones otherwise. */
  function FilesOf(items: seq<Entry>, createFolders: bool): seq<FileInfo>
    decreases SizeAll(items), 1
  {
    if items == [] then [] else FilesOfItem(items[0], createFolders) + FilesOf(items[1..], createFolders)
  }

  function FilesOfItem(e: Entry, createFolders: bool): seq<FileInfo>
    decreases Size(e), 0
  {
    match e
    case NoEntry => []
    case FileEntry(f) => [f]
    case DirectoryEntry(_, children) => if createFolders then FilesOf(children, true) else []
  }

  /** The files a sequence of actions uploads, in order. */
  function Uploads(actions: seq<Action>): seq<FileInfo>
  {
    if actions == [] then []
    else (if actions[0].UploadFile? then [actions[0].file] else []) + Uploads(actions[1..])
  }

  /** The paths of the folders that the actions created, as their replies give them. */
  function Created(actions: seq<Action>, reply: seq<Action> -> Reply, history: seq<Action>): set<string>
  {
    if actions == [] then {}
    else
      var r := reply(history + actions);
      Created(actions[..|actions| - 1], reply, history)
        + (if actions[|actions| - 1].CreateFolder? && r.Done? then {r.path} else {})
  }

  /** Every action targets one of `roots` or a folder created by an earlier action. */
  predicate TargetsKnown(actions: seq<Action>, reply: seq<Action> -> Reply, history: seq<Action>, roots: set<string>)
  {
    forall j :: 0 <= j < |actions| ==> actions[j].parentPath in roots + Created(actions[..j], reply, history)
  }

  lemma ReplyAtAppend(reply: seq<Action> -> Reply, history: seq<Action>, a: seq<Action>, b: seq<Action>)
    ensures forall j :: 0 <= j < |a| ==> ReplyAt(reply, history, a + b, j) == ReplyAt(reply, history, a, j)
    ensures forall j :: |a| <= j < |a| + |b| ==>
      ReplyAt(reply, history, a + b, j) == ReplyAt(reply, history + a, b, j - |a|)
  {
    forall j | 0 <= j < |a|
      ensures ReplyAt(reply, history, a + b, j) == ReplyAt(reply, history, a, j)
    {
      assert (a + b)[..j + 1] == a[..j + 1];
    }
    forall j | |a| <= j < |a| + |b|
      ensures ReplyAt(reply, history, a + b, j) == ReplyAt(reply, history + a, b, j - |a|)
    {
      assert history + (a + b)[..j + 1] == (history + a) + b[..j - |a| + 1];
    }
  }

  /** Continuing a walk with `a1 + b` is continuing it with `a1` and then with `b`,
      given that walking `a1 + b` is walking `a1` and then `b`. */
  lemma AndThenAssoc(w: Walk, a1: seq<Entry>, b: seq<Entry>, path: string, createFolders: bool,
                     reply: seq<Action> -> Reply, history: seq<Action>)
    requires var h1 := history + w.actions;
      WalkItems(a1 + b, path, createFolders, reply, h1) ==
        AndThen(WalkItems(a1, path, createFolders, reply, h1), b, path, createFolders, reply, h1)
    ensures AndThen(w, a1 + b, path, createFolders, reply, history) ==
      AndThen(AndThen(w, a1, path, createFolders, reply, history), b, path, createFolders, reply, history)
  {
    if w.outcome == Resolved {
      var h1 := history + w.actions;
      var wa1 := WalkItems(a1, path, createFolders, reply, h1);
      if wa1.outcome == Resolved {
        assert h1 + wa1.actions == history + (w.actions + wa1.actions);
        var wb := WalkItems(b, path, createFolders, reply, h1 + wa1.actions);
        assert w.actions + (wa1.actions + wb.actions) == (w.actions + wa1.actions) + wb.actions;
      }
    }
  }

  /** Walking `a + b` is walking `a` and then, if that resolved, walking `b` after it. */
  lemma {:induction false} WalkItemsAppend(a: seq<Entry>, b: seq<Entry>, path: string, createFolders: bool,
                                           reply: seq<Action> -> Reply, history: seq<Action>)
    ensures WalkItems(a + b, path, createFolders, reply, history) ==
      AndThen(WalkItems(a, path, createFolders, reply, history), b, path, createFolders, reply, history)
    decreases |a|
  {
    if a == [] {
      assert a + b == b;
      assert history + [] == history;
    } else {
      assert (a + b)[0] == a[0] && (a + b)[1..] == a[1..] + b;
      var first := WalkItem(a[0], path, createFolders, reply, history);
      WalkItemsAppend(a[1..], b, path, createFolders, reply, history + first.actions);
      AndThenAssoc(first, a[1..], b, path, createFolders, reply, history);
    }
  }

  /** The last action is the creation of a folder directly under `path`, and it failed
      with `error`. */
  predicate FolderFailedLast(reply: seq<Action> -> Reply, history: seq<Action>, actions: seq<Action>,
                             path: string, error: string)
  {
    && actions != []
    && ReplyAt(reply, history, actions, |actions| - 1) == Failed(error)
    && actions[|actions| - 1].CreateFolder?
    && actions[|actions| - 1].parentPath == path
  }

  /** How walk `w` under `path` ended, given whether its entries include a `null` one at
      the top (`nullAtTop`) or anywhere (`improper`). Every action but the last
      succeeded. It resolved only when every action succeeded. It rejected only when the
      last action created a folder directly under `path` and failed with that error, or
      with a `TypeError` on a top-level `null` entry. It stays pending only when the last
      action failed or some entry is `null`. */
  predicate Explained(reply: seq<Action> -> Reply, history: seq<Action>, w: Walk, path: string,
                      nullAtTop: bool, improper: bool)
  {
    && DoneBeforeLast(reply, history, w.actions)
    && (w.outcome == Resolved ==> AllDone(reply, history, w.actions))
    && (w.outcome == Pending ==> LastFailed(reply, history, w.actions) || improper)
    && (w.outcome.Rejected? ==>
          FolderFailedLast(reply, history, w.actions, path, w.outcome.error)
          || (w.outcome.error == NotAnEntryError && nullAtTop))
  }

  /** How a walk of a list ends: see `Explained`. */
  lemma {:induction false} WalkItemsOutcome(items: seq<Entry>, path: string, createFolders: bool,
                                            reply: seq<Action> -> Reply, history: seq<Action>)
    ensures Explained(reply, history, WalkItems(items, path, createFolders, reply, history), path,
                      NoEntry in items, !ProperAll(items))
    decreases SizeAll(items), 2
  {
    if items != [] {
      var first := WalkItem(items[0], path, createFolders, reply, history);
      WalkItemOutcome(items[0], path, createFolders, reply, history);
      if first.outcome == Resolved {
        var h1 := history + first.actions;
        var rest := WalkItems(items[1..], path, createFolders, reply, h1);
        WalkItemsOutcome(items[1..], path, createFolders, reply, h1);
        ReplyAtAppend(reply, history, first.actions, rest.actions);
        var w := WalkItems(items, path, createFolders, reply, history);
        assert w.actions == first.actions + rest.actions;
        if rest.actions == [] {
          assert w.actions == first.actions;
        }
        if rest.outcome.Rejected? && NoEntry in items[1..] {
          assert NoEntry in items;
        }
      }
    }
  }

  /** How the walk of one entry ends: see `Explained`. */
  lemma {:induction false} WalkItemOutcome(item: Entry, path: string, createFolders: bool,
                                           reply: seq<Action> -> Reply, history: seq<Action>)
    ensures Explained(reply, history, WalkItem(item, path, createFolders, reply, history), path,
                      item == NoEntry, !Proper(item))
    decreases Size(item), 1
  {
    match item
    case NoEntry =>
    case FileEntry(f) =>
      var w := WalkItem(item, path, createFolders, reply, history);
      assert w.actions[..1] == w.actions;
    case DirectoryEntry(name, children) =>
      if createFolders {
        DirectoryOutcome(name, children, path, reply, history);
      }
  }

  /** How a folder entry's walk ends when folders are created. */
  lemma {:induction false} DirectoryOutcome(name: string, children: seq<Entry>, path: string,
                                            reply: seq<Action> -> Reply, history: seq<Action>)
    ensures Explained(reply, history, WalkItem(DirectoryEntry(name, children), path, true, reply, history), path,
                      false, !ProperAll(children))
    decreases 1 + SizeAll(children), 0
  {
    var w := WalkItem(DirectoryEntry(name, children), path, true, reply, history);
    var a := CreateFolder(name, path);
    assert [a][..1] == [a];
    var r := reply(history + [a]);
    if r.Done? {
      var inner := WalkItems(children, r.path, true, reply, history + [a]);
      WalkItemsOutcome(children, r.path, true, reply, history + [a]);
      ReplyAtAppend(reply, history, [a], inner.actions);
      assert w.actions == [a] + inner.actions;
      if inner.outcome.Rejected? && inner.outcome.error == NotAnEntryError && NoEntry in children {
        NullIsImproper(children);
      }
    }
  }

  /** A list holding a `null` entry is not proper. */
  lemma {:induction false} NullIsImproper(items: seq<Entry>)
    requires NoEntry in items
    ensures !ProperAll(items)
    decreases |items|
  {
    if items[0] != NoEntry {
      assert NoEntry in items[1..];
      NullIsImproper(items[1..]);
    }
  }

  /** On a tree without `null` entries a walk resolves exactly when every action it
      performed succeeded. */
  lemma ResolvedIffAllDone(items: seq<Entry>, path: string, createFolders: bool,
                           reply: seq<Action> -> Reply, history: seq<Action>)
    requires ProperAll(items)
    ensures var w := WalkItems(items, path, createFolders, reply, history);
      w.outcome == Resolved <==> AllDone(reply, history, w.actions)
  {
    WalkItemsOutcome(items, path, createFolders, reply, history);
    if NoEntry in items {
      NullIsImproper(items);
    }
  }

  lemma {:induction false} UploadsAppend(a: seq<Action>, b: seq<Action>)
    ensures Uploads(a + b) == Uploads(a) + Uploads(b)
    decreases |a|
  {
    if a != [] {
      assert (a + b)[0] == a[0] && (a + b)[1..] == a[1..] + b;
      UploadsAppend(a[1..], b);
      var head := if a[0].UploadFile? then [a[0].file] else [];
      assert Uploads(a + b) == head + (Uploads(a[1..]) + Uploads(b));
      assert head + (Uploads(a[1..]) + Uploads(b)) == (head + Uploads(a[1..])) + Uploads(b);
    } else {
      assert a + b == b;
    }
  }

  /** A walk that resolves has uploaded every file it reaches, each into one action, in
      tree order: all files of the tree when folders are created, the top-level ones
      otherwise. */
  lemma {:induction false} ResolvedUploadsAllFiles(items: seq<Entry>, path: string, createFolders: bool,
                                                   reply: seq<Action> -> Reply, history: seq<Action>)
    ensures var w := WalkItems(items, path, createFolders, reply, history);
      w.outcome == Resolved ==> Uploads(w.actions) == FilesOf(items, createFolders)
    decreases SizeAll(items), 1
  {
    if items != [] {
      var first := WalkItem(items[0], path, createFolders, reply, history);
      if first.outcome == Resolved {
        ResolvedItemUploads(items[0], path, createFolders, reply, history);
        var rest := WalkItems(items[1..], path, createFolders, reply, history + first.actions);
        ResolvedUploadsAllFiles(items[1..], path, createFolders, reply, history + first.actions);
        UploadsAppend(first.actions, rest.actions);
      }
    }
  }

  lemma {:induction false} ResolvedItemUploads(item: Entry, path: string, createFolders: bool,
                                               reply: seq<Action> -> Reply, history: seq<Action>)
    ensures var w := WalkItem(item, path, createFolders, reply, history);
      w.outcome == Resolved ==> Uploads(w.actions) == FilesOfItem(item, createFolders)
    decreases Size(item), 0
  {
    match item
    case NoEntry =>
    case FileEntry(f) =>
      assert Uploads([UploadFile(f, path)]) == [f] + Uploads([]);
    case DirectoryEntry(name, children) =>
      if createFolders {
        var a := CreateFolder(name, path);
        var r := reply(history + [a]);
        if r.Done? {
          var inner := WalkItems(children, r.path, true, reply, history + [a]);
          ResolvedUploadsAllFiles(children, r.path, true, reply, history + [a]);
          UploadsAppend([a], inner.actions);
        }
      }
  }

  /** Every action uploads a file into `path`. */
  predicate OnlyUploadsInto(actions: seq<Action>, path: string)
  {
    forall j :: 0 <= j < |actions| ==> actions[j].UploadFile? && actions[j].parentPath == path
  }

  /** Without `createFolders` no folder is created: every action uploads a file into
      `path` itself, and only top-level files are reached. */
  lemma {:induction false} NoFoldersWithoutCreateFolders(items: seq<Entry>, path: string,
                                                         reply: seq<Action> -> Reply, history: seq<Action>)
    ensures OnlyUploadsInto(WalkItems(items, path, false, reply, history).actions, path)
    decreases |items|
  {
    if items != [] {
      var first := WalkItem(items[0], path, false, reply, history);
      assert OnlyUploadsInto(first.actions, path);
      if first.outcome == Resolved {
        var rest := WalkItems(items[1..], path, false, reply, history + first.actions);
        NoFoldersWithoutCreateFolders(items[1..], path, reply, history + first.actions);
        assert WalkItems(items, path, false, reply, history).actions == first.actions + rest.actions;
      }
    }
  }

  lemma {:induction false} CreatedAppend(a: seq<Action>, b: seq<Action>, reply: seq<Action> -> Reply, history: seq<Action>)
    ensures Created(a + b, reply, history) == Created(a, reply, history) + Created(b, reply, history + a)
    decreases |b|
  {
    if b == [] {
      assert a + b == a;
    } else {
      var b1 := b[..|b| - 1];
      CreatedAppend(a, b1, reply, history);
      assert (a + b)[..|a + b| - 1] == a + b1;
      assert history + (a + b) == (history + a) + b;
    }
  }

  lemma TargetsKnownAppend(a: seq<Action>, b: seq<Action>, reply: seq<Action> -> Reply,
                           history: seq<Action>, roots: set<string>)
    requires TargetsKnown(a, reply, history, roots)
    requires TargetsKnown(b, reply, history + a, roots + Created(a, reply, history))
    ensures TargetsKnown(a + b, reply, history, roots)
  {
    forall j | 0 <= j < |a + b|
      ensures (a + b)[j].parentPath in roots + Created((a + b)[..j], reply, history)
    {
      if j < |a| {
        assert (a + b)[..j] == a[..j];
      } else {
        var k := j - |a|;
        assert (a + b)[..j] == a + b[..k];
        CreatedAppend(a, b[..k], reply, history);
        assert b[k].parentPath in roots + Created(a, reply, history) + Created(b[..k], reply, history + a);
      }
    }
  }

  /** Every action of a walk targets the drop target `path` or a folder that an
      earlier action of the same walk created: no upload goes to a folder whose
      creation failed or was skipped. */
  lemma {:induction false} WalkTargetsKnown(items: seq<Entry>, path: string, createFolders: bool,
                                            reply: seq<Action> -> Reply, history: seq<Action>)
    ensures TargetsKnown(WalkItems(items, path, createFolders, reply, history).actions, reply, history, {path})
    decreases SizeAll(items), 1
  {
    if items != [] {
      var first := WalkItem(items[0], path, createFolders, reply, history);
      WalkItemTargetsKnown(items[0], path, createFolders, reply, history);
      if first.outcome == Resolved {
        var h1 := history + first.actions;
        var rest := WalkItems(items[1..], path, createFolders, reply, h1);
        WalkTargetsKnown(items[1..], path, createFolders, reply, h1);
        TargetsKnownAppend(first.actions, rest.actions, reply, history, {path});
      }
    }
  }

  lemma {:induction false} WalkItemTargetsKnown(item: Entry, path: string, createFolders: bool,
                                                reply: seq<Action> -> Reply, history: seq<Action>)
    ensures TargetsKnown(WalkItem(item, path, createFolders, reply, history).actions, reply, history, {path})
    decreases Size(item), 0
  {
    match item
    case NoEntry =>
    case FileEntry(f) =>
      assert [UploadFile(f, path)][0].parentPath == path;
    case DirectoryEntry(name, children) =>
      if createFolders {
        var a := CreateFolder(name, path);
        var r := reply(history + [a]);
        assert [a][..0] == [];
        assert TargetsKnown([a], reply, history, {path});
        if r.Done? {
          var inner := WalkItems(children, r.path, true, reply, history + [a]);
          WalkTargetsKnown(children, r.path, true, reply, history + [a]);
          assert [a][..|[a]| - 1] == [];
          assert r.path in Created([a], reply, history);
          TargetsKnownAppend([a], inner.actions, reply, history, {path});
        }
      }
  }

  /** A dropped folder, with folder creation on, is first created under `path` with
      the entry's own name. When that creation fails the walk stops there and rejects
      with its error. When it succeeds with path `p`, the walk of the folder cannot
      reject, and every later action targets `p` or a folder created beneath it: the
      children are placed in the new folder. */
  lemma FolderWalk(name: string, children: seq<Entry>, path: string,
                   reply: seq<Action> -> Reply, history: seq<Action>)
    ensures var w := WalkItem(DirectoryEntry(name, children), path, true, reply, history);
      |w.actions| >= 1 && w.actions[0] == CreateFolder(name, path)
    ensures var r := reply(history + [CreateFolder(name, path)]);
      r.Failed? ==>
        WalkItem(DirectoryEntry(name, children), path, true, reply, history)
          == Walk([CreateFolder(name, path)], Rejected(r.message))
    ensures var r := reply(history + [CreateFolder(name, path)]);
      var w := WalkItem(DirectoryEntry(name, children), path, true, reply, history);
      r.Done? ==>
        && !w.outcome.Rejected?
        && TargetsKnown(w.actions[1..], reply, history + [CreateFolder(name, path)], {r.path})
  {
    var a := CreateFolder(name, path);
    var r := reply(history + [a]);
    if r.Done? {
      var inner := WalkItems(children, r.path, true, reply, history + [a]);
      WalkTargetsKnown(children, r.path, true, reply, history + [a]);
      assert ([a] + inner.actions)[1..] == inner.actions;
    }
  }

  /** A failed folder creation rejects the whole walk: when the items before a folder
      all resolved and creating that folder fails, the walk of the list performs the
      earlier actions and that creation, and rejects with the creation's error. */
  lemma FailedFolderRejects(a: seq<Entry>, b: seq<Entry>, path: string,
                            reply: seq<Action> -> Reply, history: seq<Action>)
    requires WalkItems(a, path, true, reply, history).outcome == Resolved
    requires b != [] && b[0].DirectoryEntry?
    requires reply(history + WalkItems(a, path, true, reply, history).actions
                   + [CreateFolder(b[0].name, path)]).Failed?
    ensures var wa := WalkItems(a, path, true, reply, history);
      var c := CreateFolder(b[0].name, path);
      WalkItems(a + b, path, true, reply, history)
        == Walk(wa.actions + [c], Rejected(reply(history + wa.actions + [c]).message))
  {
    var wa := WalkItems(a, path, true, reply, history);
    WalkItemsAppend(a, b, path, true, reply, history);
    var h := history + wa.actions;
    FolderWalk(b[0].name, b[0].children, path, reply, h);
    var first := WalkItem(b[0], path, true, reply, h);
    assert first.outcome.Rejected?;
    assert WalkItems(b, path, true, reply, h) == first;
  }

  /** Without the entry API exactly the dropped files whose type is `"file"` are
      uploaded, all into `parentPath`. */
  lemma {:induction false} FallbackUploadsExactlyFiles(files: seq<DroppedFile>, parentPath: string)
    ensures forall a :: a in FallbackUploads(files, parentPath) <==>
      exists k :: 0 <= k < |files| && files[k].mimeType == "file" && a == UploadFile(files[k].file, parentPath)
    decreases |files|
  {
    if files != [] {
      var init := files[..|files| - 1];
      FallbackUploadsExactlyFiles(init, parentPath);
      forall k | 0 <= k < |init|
        ensures init[k] == files[k]
      {
      }
    }
  }

  /** The number of dropped files whose type is `"file"`. */
  function FileCount(files: seq<DroppedFile>): nat
  {
    if files == [] then 0
    else FileCount(files[..|files| - 1]) + (if files[|files| - 1].mimeType == "file" then 1 else 0)
  }

  /** Without the entry API there is exactly one upload per dropped file whose type is
      `"file"`, in drop order: the upload of the `k`-th dropped file comes after those
      of the genuine files dropped before it, and nothing else is uploaded. */
  lemma {:induction false} FallbackUploadsInOrder(files: seq<DroppedFile>, parentPath: string)
    ensures |FallbackUploads(files, parentPath)| == FileCount(files)
    ensures forall k :: 0 <= k < |files| && files[k].mimeType == "file" ==>
      FileCount(files[..k]) < |FallbackUploads(files, parentPath)|
      && FallbackUploads(files, parentPath)[FileCount(files[..k])] == UploadFile(files[k].file, parentPath)
    decreases |files|
  {
    if files != [] {
      var init := files[..|files| - 1];
      FallbackUploadsInOrder(init, parentPath);
      var before := FallbackUploads(init, parentPath);
      forall k | 0 <= k < |files| && files[k].mimeType == "file"
        ensures FileCount(files[..k]) < |FallbackUploads(files, parentPath)|
        ensures FallbackUploads(files, parentPath)[FileCount(files[..k])] == UploadFile(files[k].file, parentPath)
      {
        if k < |init| {
          assert files[..k] == init[..k] && files[k] == init[k];
        } else {
          assert files[..k] == init;
        }
      }
    }
  }
}
