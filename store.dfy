/** The folder store (`EmailStore` in `src/email.rs`): the folder tree, the path of
    indices to the folder the user is in, the selected message, and the load
    policies that fill a folder lazily. */
module Store {
  import opened Wrappers
  import opened Text
  import Fs
  import opened Mail
  import Maildir

  /** The state of an `EmailStore` (its unused message cache left out). */
  datatype StoreModel = StoreModel(root: Folder, currentFolder: seq<nat>, selectedEmail: Option<nat>)

  // ----- Paths of indices -----

  /** `get_current_folder`: follow the path from `f`, skipping every index that is
      out of range for the folder reached so far. */
  function Walk(f: Folder, path: seq<nat>): Folder
    decreases |path|
  {
    if path == [] then f
    else if path[0] < |f.subfolders| then Walk(f.subfolders[path[0]], path[1..])
    else Walk(f, path[1..])
  }

  /** The indices of `path` that the walk from `f` actually follows. */
  function Effective(f: Folder, path: seq<nat>): seq<nat>
    decreases |path|
  {
    if path == [] then []
    else if path[0] < |f.subfolders| then [path[0]] + Effective(f.subfolders[path[0]], path[1..])
    else Effective(f, path[1..])
  }

  /** The folder at `path` when every index on it is in range (the lookup the
      folder pane uses for the folder under the cursor). */
  function FolderAtPath(f: Folder, path: seq<nat>): Option<Folder>
    decreases |path|
  {
    if path == [] then Some(f)
    else if path[0] < |f.subfolders| then FolderAtPath(f.subfolders[path[0]], path[1..])
    else None
  }

  /** The walk never fails: it is the strict lookup of the indices it follows. */
  lemma {:induction false} WalkFollowsEffective(f: Folder, path: seq<nat>)
    ensures FolderAtPath(f, Effective(f, path)) == Some(Walk(f, path))
    decreases |path|
  {
    if path != [] {
      if path[0] < |f.subfolders| {
        var rest := Effective(f.subfolders[path[0]], path[1..]);
        WalkFollowsEffective(f.subfolders[path[0]], path[1..]);
        assert ([path[0]] + rest)[0] == path[0] && ([path[0]] + rest)[1..] == rest;
      } else {
        WalkFollowsEffective(f, path[1..]);
      }
    }
  }

  /** On a path whose indices are all in range, the walk skips nothing. */
  lemma {:induction false} WalkOnValidPath(f: Folder, path: seq<nat>)
    requires FolderAtPath(f, path).Some?
    ensures Walk(f, path) == FolderAtPath(f, path).value
    ensures Effective(f, path) == path
    decreases |path|
  {
    if path != [] {
      WalkOnValidPath(f.subfolders[path[0]], path[1..]);
      assert path == [path[0]] + path[1..];
    }
  }

  /** One more index either descends into the child it names or is skipped. */
  lemma {:induction false} WalkAppend(f: Folder, path: seq<nat>, i: nat)
    ensures Walk(f, path + [i]) ==
              (var g := Walk(f, path); if i < |g.subfolders| then g.subfolders[i] else g)
    decreases |path|
  {
    if path == [] {
      assert [] + [i] == [i] && [i][1..] == [];
    } else {
      assert (path + [i])[0] == path[0] && (path + [i])[1..] == path[1..] + [i];
      if path[0] < |f.subfolders| {
        WalkAppend(f.subfolders[path[0]], path[1..], i);
      } else {
        WalkAppend(f, path[1..], i);
      }
    }
  }

  /** `get_current_folder_mut` followed by an assignment: the folder the walk
      reaches is replaced by `g`. */
  function ReplaceAt(f: Folder, path: seq<nat>, g: Folder): Folder
    decreases |path|
  {
    if path == [] then g
    else if path[0] < |f.subfolders| then
      f.(subfolders := f.subfolders[path[0] := ReplaceAt(f.subfolders[path[0]], path[1..], g)])
    else ReplaceAt(f, path[1..], g)
  }

  /** Replacing the reached folder by one with the same subfolders keeps the route
      of the walk, so the walk then reaches the new folder. */
  lemma {:induction false} WalkReplaceAt(f: Folder, path: seq<nat>, g: Folder)
    requires g.subfolders == Walk(f, path).subfolders
    ensures |ReplaceAt(f, path, g).subfolders| == |f.subfolders|
    ensures Walk(ReplaceAt(f, path, g), path) == g
    decreases |path|
  {
    if path != [] {
      if path[0] < |f.subfolders| {
        WalkReplaceAt(f.subfolders[path[0]], path[1..], g);
      } else {
        WalkReplaceAt(f, path[1..], g);
      }
    }
  }

  /** Putting back the folder the walk reaches changes nothing. */
  lemma {:induction false} ReplaceAtWalk(f: Folder, path: seq<nat>)
    ensures ReplaceAt(f, path, Walk(f, path)) == f
    decreases |path|
  {
    if path != [] {
      if path[0] < |f.subfolders| {
        ReplaceAtWalk(f.subfolders[path[0]], path[1..]);
        assert f.subfolders[path[0] := f.subfolders[path[0]]] == f.subfolders;
      } else {
        ReplaceAtWalk(f, path[1..]);
      }
    }
  }

  // ----- Navigation and selection -----

  function CurrentFolder(m: StoreModel): Folder {
    Walk(m.root, m.currentFolder)
  }

  /** `enter_folder`: descend only into an existing child; the selection is cleared. */
  function AfterEnterFolder(m: StoreModel, i: nat): (r: StoreModel)
    ensures r.root == m.root
    ensures i < |CurrentFolder(m).subfolders| ==>
              r.currentFolder == m.currentFolder + [i] && r.selectedEmail.None?
    ensures i >= |CurrentFolder(m).subfolders| ==> r == m
  {
    if i < |CurrentFolder(m).subfolders| then m.(currentFolder := m.currentFolder + [i], selectedEmail := None)
    else m
  }

  /** `enter_folder_by_path`: the indices are appended unchecked. */
  function AfterEnterFolderByPath(m: StoreModel, path: seq<nat>): StoreModel {
    m.(currentFolder := m.currentFolder + path, selectedEmail := None)
  }

  /** `exit_folder`: go up one level unless at the root. */
  function AfterExitFolder(m: StoreModel): (r: StoreModel)
    ensures r.root == m.root
    ensures m.currentFolder == [] ==> r == m
    ensures m.currentFolder != [] ==>
              m.currentFolder == r.currentFolder + [m.currentFolder[|m.currentFolder| - 1]]
              && r.selectedEmail.None?
  {
    if m.currentFolder == [] then m
    else m.(currentFolder := m.currentFolder[..|m.currentFolder| - 1], selectedEmail := None)
  }

  /** Entering a child and leaving it again returns to the same folder. */
  lemma EnterThenExit(m: StoreModel, i: nat)
    requires i < |CurrentFolder(m).subfolders|
    ensures AfterExitFolder(AfterEnterFolder(m, i)) == m.(selectedEmail := None)
  {
    assert (m.currentFolder + [i])[..|m.currentFolder|] == m.currentFolder;
  }

  /** Entering a child makes that child the current folder. */
  lemma EnterReachesChild(m: StoreModel, i: nat)
    requires i < |CurrentFolder(m).subfolders|
    ensures CurrentFolder(AfterEnterFolder(m, i)) == CurrentFolder(m).subfolders[i]
  {
    WalkAppend(m.root, m.currentFolder, i);
  }

  /** `select_email`: select only an existing message of the current folder. */
  function AfterSelectEmail(m: StoreModel, i: nat): (r: StoreModel)
    ensures r.root == m.root && r.currentFolder == m.currentFolder
    ensures r.selectedEmail == (if i < |CurrentFolder(m).emails| then Some(i) else m.selectedEmail)
  {
    if i < |CurrentFolder(m).emails| then m.(selectedEmail := Some(i)) else m
  }

  /** The selection designates a message of the current folder. */
  predicate SelectionInBounds(m: StoreModel) {
    m.selectedEmail.Some? ==> m.selectedEmail.value < |CurrentFolder(m).emails|
  }

  /** Navigation and selection keep the selection in bounds. */
  lemma NavigationKeepsSelectionInBounds(m: StoreModel, i: nat, path: seq<nat>)
    requires SelectionInBounds(m)
    ensures SelectionInBounds(AfterSelectEmail(m, i))
    ensures SelectionInBounds(AfterEnterFolder(m, i))
    ensures SelectionInBounds(AfterEnterFolderByPath(m, path))
    ensures SelectionInBounds(AfterExitFolder(m))
  {
  }

  // ----- Load policies -----

  /** Load the folder the walk along `path` reaches with `limit`, unless it is
      loaded; the folder keeps what the load did even when it fails. */
  function LoadAt(m: StoreModel, path: seq<nat>, sc: Maildir.Scanner, limit: Option<nat>): (StoreModel, Option<string>) {
    var f := Walk(m.root, path);
    if f.isLoaded then (m, None)
    else
      var o := Maildir.LoadSpec(sc, f, limit);
      (m.(root := ReplaceAt(m.root, path, o.folder)), o.error)
  }

  /** `ensure_current_folder_loaded` */
  function EnsureCurrentFolderLoaded(m: StoreModel, sc: Maildir.Scanner): (StoreModel, Option<string>) {
    LoadAt(m, m.currentFolder, sc, None)
  }

  /** `ensure_current_folder_loaded_with_limit` */
  function EnsureCurrentFolderLoadedWithLimit(m: StoreModel, sc: Maildir.Scanner, limit: nat): (StoreModel, Option<string>) {
    LoadAt(m, m.currentFolder, sc, Some(limit))
  }

  /** `ensure_specific_folder_loaded`: a child of the current folder, if it exists. */
  function EnsureSpecificFolderLoaded(m: StoreModel, i: nat, sc: Maildir.Scanner): (StoreModel, Option<string>) {
    if i < |CurrentFolder(m).subfolders| then LoadAt(m, m.currentFolder + [i], sc, None)
    else (m, None)
  }

  /** The rule of `load_more_messages_if_needed`: the cursor is within five
      messages of the end of a folder that is not fully loaded. */
  predicate NeedsMore(f: Folder, index: nat) {
    !f.isLoaded && index + 5 >= |f.emails|
  }

  /** `load_more_messages_if_needed` */
  function LoadMoreMessagesIfNeeded(m: StoreModel, sc: Maildir.Scanner, index: nat): (StoreModel, Option<string>) {
    if NeedsMore(CurrentFolder(m), index) then LoadAt(m, m.currentFolder, sc, None) else (m, None)
  }

  /** `ensure_folder_at_path_loaded`, whose body is not part of this model: the folder
      at a valid path that is not loaded yet gets a load capped at `visibleRows`;
      any other path changes nothing. */
  function EnsureFolderAtPathLoaded(m: StoreModel, path: seq<nat>, sc: Maildir.Scanner, visibleRows: nat): (StoreModel, Option<string>) {
    if FolderAtPath(m.root, path).Some? then LoadAt(m, path, sc, Some(visibleRows)) else (m, None)
  }

  /** A load changes only the folder it loads: the navigation state, the selection
      and the folder's place in the tree stay; a successful unlimited load leaves the
      current folder fully loaded with counters matching its messages. */
  lemma {:induction false} LoadCurrentFolder(m: StoreModel, sc: Maildir.Scanner, limit: Option<nat>)
    ensures var (r, err) := LoadAt(m, m.currentFolder, sc, limit);
            r.currentFolder == m.currentFolder && r.selectedEmail == m.selectedEmail
            && CurrentFolder(r).name == CurrentFolder(m).name
            && CurrentFolder(r).path == CurrentFolder(m).path
            && CurrentFolder(r).subfolders == CurrentFolder(m).subfolders
            && (limit.None? && err.None? ==> CurrentFolder(r).isLoaded)
  {
    var f := CurrentFolder(m);
    if !f.isLoaded {
      var o := Maildir.LoadSpec(sc, f, limit);
      WalkReplaceAt(m.root, m.currentFolder, o.folder);
    }
  }

  /** The current-folder policies do nothing to a loaded folder. */
  lemma LoadedFolderIsLeftAlone(m: StoreModel, sc: Maildir.Scanner, limit: nat, index: nat)
    requires CurrentFolder(m).isLoaded
    ensures EnsureCurrentFolderLoaded(m, sc) == (m, None)
    ensures EnsureCurrentFolderLoadedWithLimit(m, sc, limit) == (m, None)
    ensures LoadMoreMessagesIfNeeded(m, sc, index) == (m, None)
  {
  }

  /** Loading more does a full load exactly under its rule. */
  lemma {:induction false} LoadMoreRule(m: StoreModel, sc: Maildir.Scanner, index: nat)
    ensures NeedsMore(CurrentFolder(m), index) ==>
              LoadMoreMessagesIfNeeded(m, sc, index) == EnsureCurrentFolderLoaded(m, sc)
    ensures !NeedsMore(CurrentFolder(m), index) ==> LoadMoreMessagesIfNeeded(m, sc, index) == (m, None)
    ensures var (r, err) := LoadMoreMessagesIfNeeded(m, sc, index);
            NeedsMore(CurrentFolder(m), index) && err.None? ==> CurrentFolder(r).isLoaded
  {
    LoadCurrentFolder(m, sc, None);
  }

  /** After a capped load of an empty folder, loading more keeps the messages that
      were there, so a selected index still designates the same message. */
  lemma {:induction false} LoadMoreKeepsMessages(m: StoreModel, sc: Maildir.Scanner, limit: nat, index: nat)
    requires !CurrentFolder(m).isLoaded && CurrentFolder(m).emails == []
    ensures var capped := EnsureCurrentFolderLoadedWithLimit(m, sc, limit).0;
            CurrentFolder(capped).emails <= CurrentFolder(LoadMoreMessagesIfNeeded(capped, sc, index).0).emails
  {
    var f := CurrentFolder(m);
    var o := Maildir.LoadSpec(sc, f, Some(limit));
    WalkReplaceAt(m.root, m.currentFolder, o.folder);
    var capped := EnsureCurrentFolderLoadedWithLimit(m, sc, limit).0;
    assert CurrentFolder(capped) == o.folder;
    Maildir.FullLoadExtendsCappedLoad(sc, f, limit);
    if NeedsMore(o.folder, index) {
      var o2 := Maildir.LoadSpec(sc, o.folder, None);
      WalkReplaceAt(capped.root, capped.currentFolder, o2.folder);
    }
  }

  // ----- Reading the selected message -----

  /** The selected message as it is stored (`get_selected_email_headers`). */
  function SelectedEmailHeaders(m: StoreModel): (r: Option<Email>)
    ensures r.Some? <==> m.selectedEmail.Some? && m.selectedEmail.value < |CurrentFolder(m).emails|
    ensures r.Some? ==> r.value == CurrentFolder(m).emails[m.selectedEmail.value]
  {
    var f := CurrentFolder(m);
    if m.selectedEmail.Some? && m.selectedEmail.value < |f.emails| then Some(f.emails[m.selectedEmail.value])
    else None
  }

  /** `get_selected_email`: the selected message, fully loaded first (and stored so);
      nothing when there is none or its loading fails, the store then unchanged. */
  function GetSelectedEmail(m: StoreModel, fs: Fs.Node): (StoreModel, Option<Email>) {
    match SelectedEmailHeaders(m)
    case None => (m, None)
    case Some(e) =>
      match EnsureFullyLoaded(e, fs)
      case Err(_) => (m, None)
      case Ok(e1) =>
        var f := CurrentFolder(m);
        (m.(root := ReplaceAt(m.root, m.currentFolder, f.(emails := f.emails[m.selectedEmail.value := e1]))), Some(e1))
  }

  lemma {:induction false} UnreadInUpdate(s: seq<Email>, i: nat, e: Email)
    requires i < |s| && e.isUnread == s[i].isUnread
    ensures UnreadIn(s[i := e]) == UnreadIn(s)
    decreases |s|
  {
    if i < |s| - 1 {
      assert s[i := e][..|s| - 1] == s[..|s| - 1][i := e];
      UnreadInUpdate(s[..|s| - 1], i, e);
    } else {
      assert s[i := e][..|s| - 1] == s[..|s| - 1];
    }
  }

  /** Reading the selected message yields it fully loaded and stores it so, in its
      place, with the message count, the counters' agreement and the navigation
      state kept. */
  lemma {:induction false} GetSelectedEmailStores(m: StoreModel, fs: Fs.Node)
    ensures var (r, e) := GetSelectedEmail(m, fs);
            r.currentFolder == m.currentFolder && r.selectedEmail == m.selectedEmail
            && |CurrentFolder(r).emails| == |CurrentFolder(m).emails|
            && (CountsConsistent(CurrentFolder(m)) ==> CountsConsistent(CurrentFolder(r)))
            && (e.Some? ==> e.value.loadState == FullyLoaded && SelectedEmailHeaders(r) == e)
            && (e.None? ==> r == m)
  {
    var f := CurrentFolder(m);
    match SelectedEmailHeaders(m)
    case None =>
    case Some(e) =>
      match EnsureFullyLoaded(e, fs)
      case Err(_) =>
      case Ok(e1) =>
        var i := m.selectedEmail.value;
        var g := f.(emails := f.emails[i := e1]);
        WalkReplaceAt(m.root, m.currentFolder, g);
        UnreadInUpdate(f.emails, i, e1);
  }

  /** `get_selected_email_markdown`: the body text of the message after it is fully
      loaded. */
  function SelectedEmailMarkdown(m: StoreModel, fs: Fs.Node): (StoreModel, Option<string>) {
    match SelectedEmailHeaders(m)
    case None => (m, None)
    case Some(e) =>
      match EnsureFullyLoaded(e, fs)
      case Err(_) => (m, None)
      case Ok(e1) =>
        var f := CurrentFolder(m);
        (m.(root := ReplaceAt(m.root, m.currentFolder, f.(emails := f.emails[m.selectedEmail.value := e1]))), Some(e1.bodyText))
  }

  /** The markdown is the body text of what reading the selected message yields. */
  lemma MarkdownIsBodyOfSelected(m: StoreModel, fs: Fs.Node)
    ensures SelectedEmailMarkdown(m, fs).0 == GetSelectedEmail(m, fs).0
    ensures var e := GetSelectedEmail(m, fs).1;
            SelectedEmailMarkdown(m, fs).1 == if e.Some? then Some(e.value.bodyText) else None
  {
  }

  // ----- The breadcrumb -----

  /** The names of the folders the walk from `f` passes through. */
  function PathNames(f: Folder, path: seq<nat>): seq<string>
    decreases |path|
  {
    if path == [] then []
    else if path[0] < |f.subfolders| then [f.subfolders[path[0]].name] + PathNames(f.subfolders[path[0]], path[1..])
    else PathNames(f, path[1..])
  }

  /** `get_folder_path` for the current path, and `get_folder_path_for_indices`
      (whose body is not part of this model) for any other: "Mail" and the names
      of the folders passed, joined by " > ". */
  function Breadcrumb(root: Folder, path: seq<nat>): string {
    Join(["Mail"] + PathNames(root, path), " > ")
  }

  lemma {:induction false} PathNamesAppend(f: Folder, path: seq<nat>, i: nat)
    ensures PathNames(f, path + [i]) ==
              PathNames(f, path) + (var g := Walk(f, path); if i < |g.subfolders| then [g.subfolders[i].name] else [])
    decreases |path|
  {
    if path == [] {
      assert [] + [i] == [i] && [i][1..] == [];
    } else {
      assert (path + [i])[0] == path[0] && (path + [i])[1..] == path[1..] + [i];
      if path[0] < |f.subfolders| {
        PathNamesAppend(f.subfolders[path[0]], path[1..], i);
      } else {
        PathNamesAppend(f, path[1..], i);
      }
    }
  }

  /** The breadcrumb at the root is "Mail"; entering a child adds " > " and its name. */
  lemma BreadcrumbEnter(m: StoreModel, i: nat)
    requires i < |CurrentFolder(m).subfolders|
    ensures Breadcrumb(m.root, []) == "Mail"
    ensures Breadcrumb(m.root, AfterEnterFolder(m, i).currentFolder)
         == Breadcrumb(m.root, m.currentFolder) + " > " + CurrentFolder(m).subfolders[i].name
  {
    var names := PathNames(m.root, m.currentFolder);
    PathNamesAppend(m.root, m.currentFolder, i);
    JoinSnoc(["Mail"] + names, CurrentFolder(m).subfolders[i].name, " > ");
    assert ["Mail"] + (names + [CurrentFolder(m).subfolders[i].name])
        == (["Mail"] + names) + [CurrentFolder(m).subfolders[i].name];
  }

  // ----- The store object -----

  class EmailStore {
    var root: Folder
    var currentFolder: seq<nat>
    var selectedEmail: Option<nat>

    function Model(): StoreModel
      reads this
    {
      StoreModel(root, currentFolder, selectedEmail)
    }

    /** `EmailStore::new`: an empty root named "Mail" at the Maildir path. */
    constructor (maildirPath: Fs.Path)
      ensures Model() == StoreModel(NewFolder("Mail", maildirPath), [], None)
    {
      root := NewFolder("Mail", maildirPath);
      currentFolder := [];
      selectedEmail := None;
    }

    /** `get_current_folder` */
    method GetCurrentFolder() returns (f: Folder)
      ensures f == CurrentFolder(Model())
    {
      f := root;
      var i := 0;
      while i < |currentFolder|
        invariant 0 <= i <= |currentFolder|
        invariant Walk(f, currentFolder[i..]) == Walk(root, currentFolder)
      {
        assert currentFolder[i..][0] == currentFolder[i] && currentFolder[i..][1..] == currentFolder[i + 1..];
        var index := currentFolder[i];
        if index < |f.subfolders| {
          f := f.subfolders[index];
        }
        i := i + 1;
      }
    }

    method EnterFolder(i: nat)
      modifies this
      ensures Model() == AfterEnterFolder(old(Model()), i)
    {
      var current := GetCurrentFolder();
      if i < |current.subfolders| {
        currentFolder := currentFolder + [i];
        selectedEmail := None;
      }
    }

    method EnterFolderByPath(path: seq<nat>)
      modifies this
      ensures Model() == AfterEnterFolderByPath(old(Model()), path)
    {
      currentFolder := currentFolder + path;
      selectedEmail := None;
    }

    /** The `current_folder.clear()` the input handlers do before entering a path. */
    method ResetPath()
      modifies this
      ensures Model() == old(Model()).(currentFolder := [])
    {
      currentFolder := [];
    }

    method ExitFolder()
      modifies this
      ensures Model() == AfterExitFolder(old(Model()))
    {
      if currentFolder != [] {
        currentFolder := currentFolder[..|currentFolder| - 1];
        selectedEmail := None;
      }
    }

    method SelectEmail(i: nat)
      modifies this
      ensures Model() == AfterSelectEmail(old(Model()), i)
    {
      var current := GetCurrentFolder();
      if i < |current.emails| {
        selectedEmail := Some(i);
      }
    }

    /** The direct assignment `selected_email = None` that the pane logic does. */
    method Deselect()
      modifies this
      ensures Model() == old(Model()).(selectedEmail := None)
    {
      selectedEmail := None;
    }

    /** The load of the folder the walk along `path` reaches. */
    method LoadFolderAt(path: seq<nat>, sc: Maildir.Scanner, limit: Option<nat>) returns (err: Option<string>)
      modifies this
      ensures (Model(), err) == LoadAt(old(Model()), path, sc, limit)
    {
      var f := Walk(root, path);
      if !f.isLoaded {
        var o := Maildir.LoadFolderEmailsWithLimit(sc, f, limit);
        root := ReplaceAt(root, path, o.folder);
        err := o.error;
      } else {
        err := None;
      }
    }

    method EnsureCurrentFolderLoadedM(sc: Maildir.Scanner) returns (err: Option<string>)
      modifies this
      ensures (Model(), err) == EnsureCurrentFolderLoaded(old(Model()), sc)
    {
      err := LoadFolderAt(currentFolder, sc, None);
    }

    method EnsureCurrentFolderLoadedWithLimitM(sc: Maildir.Scanner, limit: nat) returns (err: Option<string>)
      modifies this
      ensures (Model(), err) == EnsureCurrentFolderLoadedWithLimit(old(Model()), sc, limit)
    {
      err := LoadFolderAt(currentFolder, sc, Some(limit));
    }

    method EnsureSpecificFolderLoadedM(i: nat, sc: Maildir.Scanner) returns (err: Option<string>)
      modifies this
      ensures (Model(), err) == EnsureSpecificFolderLoaded(old(Model()), i, sc)
    {
      var current := GetCurrentFolder();
      if i < |current.subfolders| {
        err := LoadFolderAt(currentFolder + [i], sc, None);
      } else {
        err := None;
      }
    }

    method LoadMoreMessagesIfNeededM(sc: Maildir.Scanner, index: nat) returns (err: Option<string>)
      modifies this
      ensures (Model(), err) == LoadMoreMessagesIfNeeded(old(Model()), sc, index)
    {
      var current := GetCurrentFolder();
      if !current.isLoaded && index + 5 >= |current.emails| {
        err := LoadFolderAt(currentFolder, sc, None);
      } else {
        err := None;
      }
    }

    method EnsureFolderAtPathLoadedM(path: seq<nat>, sc: Maildir.Scanner, visibleRows: nat) returns (err: Option<string>)
      modifies this
      ensures (Model(), err) == EnsureFolderAtPathLoaded(old(Model()), path, sc, visibleRows)
    {
      if FolderAtPath(root, path).Some? {
        err := LoadFolderAt(path, sc, Some(visibleRows));
      } else {
        err := None;
      }
    }

    method GetSelectedEmailM(fs: Fs.Node) returns (e: Option<Email>)
      modifies this
      ensures (Model(), e) == GetSelectedEmail(old(Model()), fs)
    {
      var current := GetCurrentFolder();
      if selectedEmail.Some? && selectedEmail.value < |current.emails| {
        var index := selectedEmail.value;
        var loaded := EnsureFullyLoaded(current.emails[index], fs);
        if loaded.Err? {
          return None;
        }
        root := ReplaceAt(root, currentFolder, current.(emails := current.emails[index := loaded.value]));
        return Some(loaded.value);
      }
      return None;
    }

    method GetSelectedEmailMarkdown(fs: Fs.Node) returns (md: Option<string>)
      modifies this
      ensures (Model(), md) == SelectedEmailMarkdown(old(Model()), fs)
    {
      var e := GetSelectedEmailM(fs);
      md := if e.Some? then Some(e.value.bodyText) else None;
    }

    /** `get_folder_path` */
    method GetFolderPath() returns (s: string)
      ensures s == Breadcrumb(root, currentFolder)
    {
      var parts := ["Mail"];
      var f := root;
      var i := 0;
      while i < |currentFolder|
        invariant 0 <= i <= |currentFolder|
        invariant parts + PathNames(f, currentFolder[i..]) == ["Mail"] + PathNames(root, currentFolder)
      {
        assert currentFolder[i..][0] == currentFolder[i] && currentFolder[i..][1..] == currentFolder[i + 1..];
        var index := currentFolder[i];
        if index < |f.subfolders| {
          f := f.subfolders[index];
          parts := parts + [f.name];
        }
        i := i + 1;
      }
      assert parts == parts + PathNames(f, currentFolder[i..]);
      s := Join(parts, " > ");
    }
  }
}
