/** The Maildir scanner (`src/maildir.rs`): the structure-only scan of the folder
    tree at startup, and the lazy, optionally capped loading of one folder's
    messages from its `cur` and `new` directories. */
module Maildir {
  import opened Wrappers
  import opened Text
  import Fs
  import opened Mail

  /** `MaildirScanner`: the root path, with the filesystem it reads. */
  datatype Scanner = Scanner(rootPath: Fs.Path, fs: Fs.Node)

  /** A folder value after a load, and the error that ended the load early, if any.
      The Rust load changes the folder in place before it returns an error, so the
      folder is meaningful in both cases. */
  datatype Outcome = Outcome(folder: Folder, error: Option<string>)

  /** The file-name half of `is_email_file`. */
  predicate IsEmailFileName(name: string) {
    !StartsWith(name, ".") && !EndsWith(name, ".lock") && !EndsWith(name, ".tmp")
  }

  /** Hidden names and names ending in `.lock` or `.tmp` are refused. */
  lemma EmailFileNameRefuses(name: string)
    ensures !IsEmailFileName("." + name)
    ensures !IsEmailFileName(name + ".lock") && !IsEmailFileName(name + ".tmp")
  {
    assert ("." + name)[..1] == ".";
    assert (name + ".lock")[|name + ".lock"| - 5..] == ".lock";
    assert (name + ".tmp")[|name + ".tmp"| - 4..] == ".tmp";
  }

  /** A sufficient condition only, not the converse of the rules above: a name that
      starts with anything but `.` and ends in neither `k` nor `p` (so in neither
      `.lock` nor `.tmp`) is accepted. */
  lemma EmailFileNameAccepts(name: string)
    requires name != [] && name[0] != '.' && name[|name| - 1] != 'k' && name[|name| - 1] != 'p'
    ensures IsEmailFileName(name)
  {
    FirstCharDiffers(name, ".");
    if |name| >= 5 {
      assert name[|name| - 5..][4] == name[|name| - 1];
    }
    if |name| >= 4 {
      assert name[|name| - 4..][3] == name[|name| - 1];
    }
  }

  /** `is_email_file`: a regular file whose name is not hidden, a lock or a temporary. */
  predicate IsEmailFile(n: Fs.Node) {
    n.File? && IsEmailFileName(n.name)
  }

  /** Messages found in a directory named "new" are unread. */
  predicate IsNewDir(dir: Fs.Path) {
    |dir| > 0 && dir[|dir| - 1] == "new"
  }

  /** The message came from a file directly inside `dir`. */
  predicate FromDir(e: Email, dir: Fs.Path) {
    |e.filePath| == |dir| + 1 && e.filePath[..|dir|] == dir
  }

  /** The message made for one accepted file: its headers if they parse, otherwise a
      placeholder whose subject describes the error. */
  function MakeEmail(fs: Fs.Node, p: Fs.Path, unread: bool): (e: Email)
    ensures e.filePath == p && e.isUnread == unread && e.loadState == HeadersOnly
    ensures !Parses(fs, p) ==> StartsWith(e.headers.subject, "Parse Error: ")
    ensures Parses(fs, p) ==> e.headers == HeadersOf(Fs.ReadFile(fs, p).value.message)
  {
    var e0 := NewEmail(p).(isUnread := unread);
    match ParseHeadersOnly(e0, fs)
    case Ok(e1) => e1
    case Err(msg) => e0.(headers := e0.headers.(subject := "Parse Error: " + msg))
  }

  /** Every message from position `lo` on came from `dir`, and is unread exactly
      when `dir` is a "new" directory. */
  predicate AllFrom(es: seq<Email>, lo: nat, dir: Fs.Path) {
    forall i :: lo <= i < |es| ==> FromDir(es[i], dir) && (es[i].isUnread <==> IsNewDir(dir))
  }

  /** The first `k` messages came from `cur` and are read; the others came from
      `new` and are unread. */
  predicate CurThenNew(es: seq<Email>, k: nat, path: Fs.Path) {
    k <= |es|
    && (forall i :: 0 <= i < k ==> FromDir(es[i], path + ["cur"]) && !es[i].isUnread)
    && (forall i :: k <= i < |es| ==> FromDir(es[i], path + ["new"]) && es[i].isUnread)
  }

  predicate NoBroken(entries: seq<Fs.Node>) {
    forall i :: 0 <= i < |entries| ==> !entries[i].Broken?
  }

  function EmailFileCount(entries: seq<Fs.Node>): nat {
    if entries == [] then 0
    else (if IsEmailFile(entries[0]) then 1 else 0) + EmailFileCount(entries[1..])
  }

  /** What scanning the listing `entries` of directory `dir` does to `f` when `count`
      messages have been taken already: the budget is checked before each entry, an
      entry the listing reports as an error ends the scan with that error, and every
      accepted file adds exactly one message. */
  function ScanEntries(fs: Fs.Node, dir: Fs.Path, entries: seq<Fs.Node>, limit: Option<nat>,
                       count: nat, f: Folder): (o: Outcome)
    decreases |entries|
    ensures o.folder == f.(emails := o.folder.emails, unreadCount := o.folder.unreadCount,
                           totalCount := o.folder.totalCount)
    ensures f.emails <= o.folder.emails
    ensures AllFrom(o.folder.emails, |f.emails|, dir)
    ensures CountsConsistent(f) ==> CountsConsistent(o.folder)
    ensures limit.Some? && count <= limit.value ==>
              |o.folder.emails| <= |f.emails| + (limit.value - count)
    ensures limit.None? && NoBroken(entries) ==>
              o.error.None? && |o.folder.emails| == |f.emails| + EmailFileCount(entries)
  {
    if entries == [] then Outcome(f, None)
    else if limit.Some? && count >= limit.value then Outcome(f, None)
    else
      var entry := entries[0];
      if entry.Broken? then Outcome(f, Some(entry.reason))
      else if IsEmailFile(entry) then
        var e := MakeEmail(fs, dir + [entry.name], IsNewDir(dir));
        assert FromDir(e, dir) by {
          assert e.filePath[..|dir|] == dir;
        }
        AddEmailKeepsConsistency(f, e);
        ScanEntries(fs, dir, entries[1..], limit, count + 1, AddEmail(f, e))
      else
        ScanEntries(fs, dir, entries[1..], limit, count, f)
  }

  lemma AddEmailKeepsConsistency(f: Folder, e: Email)
    ensures CountsConsistent(f) ==> CountsConsistent(AddEmail(f, e))
  {
    if CountsConsistent(f) {
      AddEmailKeepsCounts(f, e);
    }
  }

  /** `scan_emails_in_folder_with_limit` on directory `dir`: nothing when it is not
      a directory. */
  function ScanDir(sc: Scanner, f: Folder, dir: Fs.Path, limit: Option<nat>): Outcome {
    if !Fs.IsDir(sc.fs, dir) then Outcome(f, None)
    else ScanEntries(sc.fs, dir, Fs.Resolve(sc.fs, dir).value.entries, limit, 0, f)
  }

  method ScanEmailsInFolderWithLimit(sc: Scanner, folder: Folder, dir: Fs.Path, limit: Option<nat>)
    returns (o: Outcome)
    ensures o == ScanDir(sc, folder, dir, limit)
  {
    if !Fs.IsDir(sc.fs, dir) {
      return Outcome(folder, None);
    }
    var entries := Fs.Resolve(sc.fs, dir).value.entries;
    var f := folder;
    var count := 0;
    var i := 0;
    while i < |entries|
      invariant 0 <= i <= |entries|
      invariant ScanEntries(sc.fs, dir, entries[i..], limit, count, f)
             == ScanEntries(sc.fs, dir, entries, limit, 0, folder)
    {
      assert entries[i..][0] == entries[i] && entries[i..][1..] == entries[i + 1..];
      if limit.Some? && count >= limit.value {
        break;
      }
      var entry := entries[i];
      if entry.Broken? {
        return Outcome(f, Some(entry.reason));
      }
      if IsEmailFile(entry) {
        var email := MakeEmail(sc.fs, dir + [entry.name], IsNewDir(dir));
        f := AddEmail(f, email);
        count := count + 1;
      }
      i := i + 1;
    }
    return Outcome(f, None);
  }

  /** Only a load without a limit marks the folder as fully loaded. */
  function MarkLoaded(f: Folder, limit: Option<nat>): Folder {
    if limit.None? then f.(isLoaded := true) else f
  }

  /** A folder is a Maildir only when its `cur`, `new` and `tmp` all exist. */
  predicate IsMaildir(sc: Scanner, path: Fs.Path) {
    Fs.Exists(sc.fs, path + ["cur"]) && Fs.Exists(sc.fs, path + ["new"]) && Fs.Exists(sc.fs, path + ["tmp"])
  }

  /** `saturating_sub` on `usize` */
  function SatSub(a: nat, b: nat): nat {
    if a >= b then a - b else 0
  }

  /** The folder with its messages and counters cleared. */
  function Cleared(f: Folder): Folder {
    f.(emails := [], unreadCount := 0, totalCount := 0)
  }

  /** `load_folder_emails_with_limit` */
  function LoadSpec(sc: Scanner, f: Folder, limit: Option<nat>): (o: Outcome)
    ensures f.isLoaded ==> o == Outcome(f, None)
    ensures limit.Some? && |f.emails| > 0 ==> o == Outcome(f, None)
    ensures o.folder.name == f.name && o.folder.path == f.path && o.folder.subfolders == f.subfolders
    ensures o.error.None? ==> (o.folder.isLoaded <==> f.isLoaded || limit.None?)
    ensures o.error.Some? ==> o.folder.isLoaded == f.isLoaded
    ensures !IsMaildir(sc, f.path) ==> o.folder.emails == f.emails
  {
    if f.isLoaded then Outcome(f, None)
    else if limit.Some? && |f.emails| > 0 then Outcome(f, None)
    else if !IsMaildir(sc, f.path) then Outcome(MarkLoaded(f, limit), None)
    else
      var o1 := ScanDir(sc, Cleared(f), f.path + ["cur"], limit);
      if o1.error.Some? then o1
      else if limit.None? || |o1.folder.emails| < limit.value then
        var remaining := if limit.None? then None else Some(SatSub(limit.value, |o1.folder.emails|));
        var o2 := ScanDir(sc, o1.folder, f.path + ["new"], remaining);
        if o2.error.Some? then o2 else Outcome(MarkLoaded(o2.folder, limit), None)
      else Outcome(MarkLoaded(o1.folder, limit), None)
  }

  method LoadFolderEmailsWithLimit(sc: Scanner, folder: Folder, limit: Option<nat>) returns (o: Outcome)
    ensures o == LoadSpec(sc, folder, limit)
  {
    if folder.isLoaded {
      return Outcome(folder, None);
    }
    if limit.Some? && |folder.emails| > 0 {
      return Outcome(folder, None);
    }
    var f := folder;
    if IsMaildir(sc, f.path) {
      f := f.(emails := [], unreadCount := 0, totalCount := 0);
      var o1 := ScanEmailsInFolderWithLimit(sc, f, folder.path + ["cur"], limit);
      if o1.error.Some? {
        return o1;
      }
      f := o1.folder;
      if limit.None? || |f.emails| < limit.value {
        var remaining := if limit.None? then None else Some(SatSub(limit.value, |f.emails|));
        var o2 := ScanEmailsInFolderWithLimit(sc, f, folder.path + ["new"], remaining);
        if o2.error.Some? {
          return o2;
        }
        f := o2.folder;
      }
    }
    if limit.None? {
      f := f.(isLoaded := true);
    }
    return Outcome(f, None);
  }

  /** `load_folder_emails` */
  method LoadFolderEmails(sc: Scanner, folder: Folder) returns (o: Outcome)
    ensures o == LoadSpec(sc, folder, None)
  {
    o := LoadFolderEmailsWithLimit(sc, folder, None);
  }

  /** A load with limit `l` leaves at most `l` messages, unless it was skipped
      because the folder already held some. */
  lemma {:induction false} LoadRespectsLimit(sc: Scanner, f: Folder, l: nat)
    ensures LoadSpec(sc, f, Some(l)).folder.emails == f.emails
         || |LoadSpec(sc, f, Some(l)).folder.emails| <= l
  {
    if !f.isLoaded && |f.emails| == 0 && IsMaildir(sc, f.path) {
      var o1 := ScanDir(sc, Cleared(f), f.path + ["cur"], Some(l));
      if o1.error.None? && |o1.folder.emails| < l {
        var o2 := ScanDir(sc, o1.folder, f.path + ["new"], Some(SatSub(l, |o1.folder.emails|)));
        assert |o2.folder.emails| <= |o1.folder.emails| + SatSub(l, |o1.folder.emails|);
      }
    }
  }

  /** A load that reads a Maildir replaces the messages instead of adding to them:
      afterwards the counters match the messages, every message comes from `cur`
      or from `new` (those from `cur` first), and exactly those from `new` are
      unread. */
  lemma {:induction false} LoadReplacesMessages(sc: Scanner, f: Folder, limit: Option<nat>)
    requires !f.isLoaded && (limit.None? || |f.emails| == 0) && IsMaildir(sc, f.path)
    ensures CountsConsistent(LoadSpec(sc, f, limit).folder)
    ensures exists k :: CurThenNew(LoadSpec(sc, f, limit).folder.emails, k, f.path)
  {
    var cur := f.path + ["cur"];
    var newDir := f.path + ["new"];
    assert !IsNewDir(cur) && IsNewDir(newDir);
    var o1 := ScanDir(sc, Cleared(f), cur, limit);
    var es1 := o1.folder.emails;
    assert CountsConsistent(Cleared(f));
    assert AllFrom(es1, 0, cur);
    if o1.error.None? && (limit.None? || |es1| < limit.value) {
      var remaining := if limit.None? then None else Some(SatSub(limit.value, |es1|));
      var o2 := ScanDir(sc, o1.folder, newDir, remaining);
      var es := o2.folder.emails;
      assert LoadSpec(sc, f, limit).folder.emails == es;
      assert es1 <= es && AllFrom(es, |es1|, newDir);
      forall i | 0 <= i < |es1|
        ensures FromDir(es[i], cur) && !es[i].isUnread
      {
        assert es[i] == es1[i];
      }
      assert CurThenNew(es, |es1|, f.path);
    } else {
      assert LoadSpec(sc, f, limit).folder.emails == es1;
      assert CurThenNew(es1, |es1|, f.path);
    }
  }

  /** Loading without a limit, when no listing reports an error, yields exactly one
      message per accepted file of `cur` and `new`, and succeeds. */
  lemma {:induction false} FullLoadCountsFiles(sc: Scanner, f: Folder, curEntries: seq<Fs.Node>, newEntries: seq<Fs.Node>)
    requires !f.isLoaded && IsMaildir(sc, f.path)
    requires Fs.Resolve(sc.fs, f.path + ["cur"]) == Some(Fs.Dir("cur", curEntries))
    requires Fs.Resolve(sc.fs, f.path + ["new"]) == Some(Fs.Dir("new", newEntries))
    requires NoBroken(curEntries) && NoBroken(newEntries)
    ensures LoadSpec(sc, f, None).error.None?
    ensures LoadSpec(sc, f, None).folder.isLoaded
    ensures |LoadSpec(sc, f, None).folder.emails| == EmailFileCount(curEntries) + EmailFileCount(newEntries)
  {
    var o1 := ScanDir(sc, Cleared(f), f.path + ["cur"], None);
    assert |o1.folder.emails| == EmailFileCount(curEntries);
    var o2 := ScanDir(sc, o1.folder, f.path + ["new"], None);
    assert |o2.folder.emails| == |o1.folder.emails| + EmailFileCount(newEntries);
  }

  /** A scan with a budget either behaves exactly like the scan without one, or
      stops without error once the budget is used up, having taken a prefix of what
      the unbudgeted scan takes. */
  lemma {:induction false} ScanEntriesCapped(fs: Fs.Node, dir: Fs.Path, entries: seq<Fs.Node>, l: nat,
                                             c1: nat, c2: nat, f: Folder)
    requires c1 <= l
    ensures var a := ScanEntries(fs, dir, entries, Some(l), c1, f);
            var b := ScanEntries(fs, dir, entries, None, c2, f);
            a == b || (a.error.None? && |a.folder.emails| == |f.emails| + (l - c1) && a.folder.emails <= b.folder.emails)
    decreases |entries|
  {
    if entries != [] && c1 < l && !entries[0].Broken? {
      if IsEmailFile(entries[0]) {
        var e := MakeEmail(fs, dir + [entries[0].name], IsNewDir(dir));
        ScanEntriesCapped(fs, dir, entries[1..], l, c1 + 1, c2 + 1, AddEmail(f, e));
      } else {
        ScanEntriesCapped(fs, dir, entries[1..], l, c1, c2, f);
      }
    }
  }

  lemma ScanDirCapped(sc: Scanner, f: Folder, dir: Fs.Path, l: nat)
    ensures var a := ScanDir(sc, f, dir, Some(l));
            var b := ScanDir(sc, f, dir, None);
            a == b || (a.error.None? && |a.folder.emails| == |f.emails| + l && a.folder.emails <= b.folder.emails)
  {
    if Fs.IsDir(sc.fs, dir) {
      ScanEntriesCapped(sc.fs, dir, Fs.Resolve(sc.fs, dir).value.entries, l, 0, 0, f);
    }
  }

  /** Loading more after a capped load: the full reload keeps the messages the capped
      load found, in the same positions, so an index chosen among them still
      designates the same message. */
  lemma {:induction false} FullLoadExtendsCappedLoad(sc: Scanner, f: Folder, l: nat)
    requires !f.isLoaded && f.emails == []
    ensures var capped := LoadSpec(sc, f, Some(l)).folder;
            capped.emails <= LoadSpec(sc, capped, None).folder.emails
  {
    var capped := LoadSpec(sc, f, Some(l)).folder;
    if IsMaildir(sc, f.path) {
      assert Cleared(capped) == Cleared(f);
      var cur := f.path + ["cur"];
      var newDir := f.path + ["new"];
      var o1L := ScanDir(sc, Cleared(f), cur, Some(l));
      var o1U := ScanDir(sc, Cleared(f), cur, None);
      ScanDirCapped(sc, Cleared(f), cur, l);
      var full := LoadSpec(sc, capped, None);
      if o1L == o1U {
        if o1U.error.None? && |o1U.folder.emails| < l {
          ScanDirCapped(sc, o1U.folder, newDir, SatSub(l, |o1U.folder.emails|));
        }
      } else {
        assert capped == o1L.folder;
        if o1U.error.None? {
          var o2U := ScanDir(sc, o1U.folder, newDir, None);
          assert full.folder.emails == o2U.folder.emails;
          assert o1U.folder.emails <= o2U.folder.emails;
        }
      }
    }
  }

  // ----- The structure-only scan -----

  /** Directories that are never folders: the Maildir parts and hidden ones. */
  predicate IsSkippedDir(name: string) {
    name == "cur" || name == "new" || name == "tmp" || StartsWith(name, ".")
  }

  /** What `read_dir` lists for a node: nothing when it is not a directory. */
  function Listing(n: Fs.Node): seq<Fs.Node> {
    if n.Dir? then n.entries else []
  }

  /** The folder tree found below directory node `n` at `path`. */
  function Subtree(name: string, path: Fs.Path, n: Fs.Node): Folder
    decreases n, 1
  {
    NewFolder(name, path).(subfolders := if n.Dir? then SubfoldersOf(n.entries, path) else [])
  }

  /** The subfolders found in a listing, in listing order. */
  function SubfoldersOf(entries: seq<Fs.Node>, path: Fs.Path): seq<Folder>
    decreases entries, 0
  {
    if entries == [] then []
    else
      SubfoldersOf(entries[..|entries| - 1], path) + EntryFolder(entries[|entries| - 1], path)
  }

  /** The folder for a listing entry, if it is one. */
  function EntryFolder(e: Fs.Node, path: Fs.Path): seq<Folder>
    decreases e, 2
  {
    if e.Dir? && !IsSkippedDir(e.name) then [Subtree(e.name, path + [e.name], e)] else []
  }

  lemma SubfoldersStep(entries: seq<Fs.Node>, i: nat, path: Fs.Path)
    requires i < |entries|
    ensures SubfoldersOf(entries[..i + 1], path) == SubfoldersOf(entries[..i], path) + EntryFolder(entries[i], path)
  {
    assert entries[..i + 1][..i] == entries[..i];
  }

  lemma EntryFolderIsSubtree(e: Fs.Node, path: Fs.Path, sub: Folder)
    requires e.Dir? && !IsSkippedDir(e.name)
    requires sub == NewFolder(e.name, path + [e.name]).(subfolders := [] + SubfoldersOf(Listing(e), path + [e.name]))
    ensures EntryFolder(e, path) == [sub]
  {
    assert [] + SubfoldersOf(Listing(e), path + [e.name]) == SubfoldersOf(e.entries, path + [e.name]);
  }

  /** `scan_folder_structure_only`: the subfolders of `node` (the directory at
      `path`) are added to `folder`, recursively; entries that cannot be read are
      skipped. */
  method ScanFolderStructureOnly(folder: Folder, path: Fs.Path, node: Fs.Node) returns (f: Folder)
    decreases node
    ensures f == folder.(subfolders := folder.subfolders + SubfoldersOf(Listing(node), path))
  {
    var entries := Listing(node);
    var subs := folder.subfolders;
    var i := 0;
    while i < |entries|
      invariant 0 <= i <= |entries|
      invariant subs == folder.subfolders + SubfoldersOf(entries[..i], path)
    {
      var entry := entries[i];
      ghost var before := SubfoldersOf(entries[..i], path);
      SubfoldersStep(entries, i, path);
      AppendAssoc(folder.subfolders, before, EntryFolder(entry, path));
      if entry.Dir? && !IsSkippedDir(entry.name) {
        var sub := NewFolder(entry.name, path + [entry.name]);
        sub := ScanFolderStructureOnly(sub, path + [entry.name], entry);
        EntryFolderIsSubtree(entry, path, sub);
        subs := subs + [sub];
      } else {
        assert EntryFolder(entry, path) == [];
      }
      i := i + 1;
    }
    assert entries[..i] == entries;
    f := folder.(subfolders := subs);
  }

  /** `MaildirScanner::scan` */
  function ScanSpec(sc: Scanner): (r: Result<Folder>)
    ensures r.Ok? <==> Fs.IsDir(sc.fs, sc.rootPath)
    ensures r.Ok? ==> r.value.name == "Mail" && r.value.path == sc.rootPath
    ensures !Fs.Exists(sc.fs, sc.rootPath) ==> r == Err("MailDir path does not exist: " + Fs.Display(sc.rootPath))
  {
    if !Fs.Exists(sc.fs, sc.rootPath) then
      Err("MailDir path does not exist: " + Fs.Display(sc.rootPath))
    else if !Fs.IsDir(sc.fs, sc.rootPath) then
      Err("MailDir path is not a directory: " + Fs.Display(sc.rootPath))
    else
      Ok(Subtree("Mail", sc.rootPath, Fs.Resolve(sc.fs, sc.rootPath).value))
  }

  method Scan(sc: Scanner) returns (r: Result<Folder>)
    ensures r == ScanSpec(sc)
  {
    if !Fs.Exists(sc.fs, sc.rootPath) {
      return Err("MailDir path does not exist: " + Fs.Display(sc.rootPath));
    }
    if !Fs.IsDir(sc.fs, sc.rootPath) {
      return Err("MailDir path is not a directory: " + Fs.Display(sc.rootPath));
    }
    var root := NewFolder("Mail", sc.rootPath);
    var node := Fs.Resolve(sc.fs, sc.rootPath).value;
    root := ScanFolderStructureOnly(root, sc.rootPath, node);
    assert [] + SubfoldersOf(Listing(node), sc.rootPath) == SubfoldersOf(Listing(node), sc.rootPath);
    return Ok(root);
  }

  /** A folder tree as the structure scan leaves it: no messages, zero counters,
      nothing loaded, no Maildir part or hidden directory as a folder, and each
      subfolder's path its parent's path and its own name. */
  predicate StructureOnly(f: Folder)
    decreases f
  {
    f.emails == [] && f.unreadCount == 0 && f.totalCount == 0 && !f.isLoaded
    && forall i :: 0 <= i < |f.subfolders| ==>
         !IsSkippedDir(f.subfolders[i].name)
         && f.subfolders[i].path == f.path + [f.subfolders[i].name]
         && StructureOnly(f.subfolders[i])
  }

  lemma {:induction false} SubtreeStructureOnly(name: string, path: Fs.Path, n: Fs.Node)
    ensures StructureOnly(Subtree(name, path, n))
    decreases n, 1
  {
    if n.Dir? {
      SubfoldersStructureOnly(n.entries, path);
    }
  }

  lemma {:induction false} SubfoldersStructureOnly(entries: seq<Fs.Node>, path: Fs.Path)
    ensures forall i :: 0 <= i < |SubfoldersOf(entries, path)| ==>
              !IsSkippedDir(SubfoldersOf(entries, path)[i].name)
              && SubfoldersOf(entries, path)[i].path == path + [SubfoldersOf(entries, path)[i].name]
              && StructureOnly(SubfoldersOf(entries, path)[i])
    decreases entries, 0
  {
    if entries != [] {
      var e := entries[|entries| - 1];
      SubfoldersStructureOnly(entries[..|entries| - 1], path);
      if e.Dir? && !IsSkippedDir(e.name) {
        SubtreeStructureOnly(e.name, path + [e.name], e);
      }
    }
  }

  /** A successful scan yields a tree with no messages loaded yet. */
  lemma ScanYieldsStructureOnly(sc: Scanner)
    requires ScanSpec(sc).Ok?
    ensures StructureOnly(ScanSpec(sc).value)
  {
    SubtreeStructureOnly("Mail", sc.rootPath, Fs.Resolve(sc.fs, sc.rootPath).value);
  }
}
