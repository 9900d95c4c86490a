/** Messages and folders (`src/email.rs`): the two-stage loading of a message, the
    folder counters, the INBOX-first order of subfolders, display names and the
    recursive listing of all messages. A `Folder` owns its subfolders by value, as
    the Rust `Vec<Folder>` does, so it is modelled as a datatype and an in-place
    change of a folder as a new folder value. */
module Mail {
  import opened Wrappers
  import opened Text
  import Fs
  import MailParser

  datatype Headers = Headers(from: string, to: string, subject: string, date: string, messageId: string)

  datatype Attachment = Attachment(filename: string, contentType: string, size: nat)

  datatype LoadState = HeadersOnly | FullyLoaded

  datatype Email = Email(
    headers: Headers,
    bodyText: string,
    bodyHtml: Option<string>,
    attachments: seq<Attachment>,
    filePath: Fs.Path,
    isUnread: bool,
    loadState: LoadState)

  /** `Email::new`: nothing read yet. */
  function NewEmail(filePath: Fs.Path): Email {
    Email(Headers("", "", "", "", ""), "", None, [], filePath, false, HeadersOnly)
  }

  /** One address as the reader shows it: "name <address>", or whichever part exists. */
  function FormatAddress(a: MailParser.Address): string {
    match (a.name, a.address)
    case (Some(n), Some(e)) => n + " <" + e + ">"
    case (None, Some(e)) => e
    case (Some(n), None) => n
    case (None, None) => "Unknown"
  }

  /** The first address of a header, or "" when there is none. */
  function FirstAddress(addrs: seq<MailParser.Address>): string {
    if |addrs| == 0 then "" else FormatAddress(addrs[0])
  }

  /** The headers taken from a parsed message. */
  function HeadersOf(m: MailParser.Message): (h: Headers)
    ensures m.subject.None? ==> h.subject == "(no subject)"
    ensures m.subject.Some? ==> h.subject == m.subject.value
  {
    Headers(FirstAddress(m.from), FirstAddress(m.to), m.subject.GetOr("(no subject)"),
            m.date.GetOr(""), m.messageId.GetOr(""))
  }

  function AttachmentOf(p: MailParser.Part): Attachment {
    var contentType :=
      match p.contentType
      case Some(ct) => ct.cType + "/" + ct.subtype.GetOr("*")
      case None => "application/octet-stream";
    Attachment(p.attachmentName.GetOr("unnamed_attachment"), contentType, p.len)
  }

  function AttachmentsOf(parts: seq<MailParser.Part>): (r: seq<Attachment>)
    ensures |r| == |parts|
    ensures forall i :: 0 <= i < |parts| ==> r[i] == AttachmentOf(parts[i])
  {
    seq(|parts|, i requires 0 <= i < |parts| => AttachmentOf(parts[i]))
  }

  /** The file at `p` reads and parses as a message. */
  predicate Parses(fs: Fs.Node, p: Fs.Path) {
    var c := Fs.ReadFile(fs, p);
    c.Ok? && c.value.Parsed?
  }

  /** `Email::parse_headers_only`: the new value of the email, or the error it fails
      with (the email is then left as it was). */
  function ParseHeadersOnly(e: Email, fs: Fs.Node): (r: Result<Email>)
    ensures r.Ok? <==> Parses(fs, e.filePath)
    ensures r.Ok? ==> r.value == e.(headers := HeadersOf(Fs.ReadFile(fs, e.filePath).value.message), loadState := HeadersOnly)
  {
    match Fs.ReadFile(fs, e.filePath)
    case Err(reason) => Err(reason)
    case Ok(c) =>
      if c.Parsed? then Ok(e.(headers := HeadersOf(c.message), loadState := HeadersOnly))
      else if c.Unparsable? then Err("Failed to parse email headers")
      else Err(c.reason)
  }

  /** `Email::parse_from_file`: headers, the bodies the message has, and its
      attachments added after those already listed. */
  function ParseFromFile(e: Email, fs: Fs.Node): (r: Result<Email>)
    ensures r.Ok? <==> Parses(fs, e.filePath)
    ensures r.Ok? ==> r.value.loadState == FullyLoaded
    ensures r.Ok? ==> r.value.filePath == e.filePath && r.value.isUnread == e.isUnread
    ensures r.Ok? ==> e.attachments <= r.value.attachments
  {
    match Fs.ReadFile(fs, e.filePath)
    case Err(reason) => Err(reason)
    case Ok(c) =>
      if c.Parsed? then
        var m := c.message;
        Ok(e.(headers := HeadersOf(m),
              bodyText := m.bodyText.GetOr(e.bodyText),
              bodyHtml := if m.bodyHtml.Some? then m.bodyHtml else e.bodyHtml,
              attachments := e.attachments + AttachmentsOf(m.attachments),
              loadState := FullyLoaded))
      else if c.Unparsable? then Err("Failed to parse email")
      else Err(c.reason)
  }

  /** `Email::ensure_fully_loaded`: the upgrade from headers only to fully loaded. */
  function EnsureFullyLoaded(e: Email, fs: Fs.Node): (r: Result<Email>)
    ensures e.loadState == FullyLoaded ==> r == Ok(e)
    ensures e.loadState == HeadersOnly ==> (r.Ok? <==> Parses(fs, e.filePath))
    ensures r.Ok? ==> r.value.loadState == FullyLoaded
    ensures r.Ok? ==> r.value.filePath == e.filePath && r.value.isUnread == e.isUnread
    ensures r.Ok? ==> e.attachments <= r.value.attachments
  {
    if e.loadState.HeadersOnly? then ParseFromFile(e, fs) else Ok(e)
  }

  /** Loading twice is loading once. */
  lemma EnsureFullyLoadedIdempotent(e: Email, fs: Fs.Node)
    requires EnsureFullyLoaded(e, fs).Ok?
    ensures EnsureFullyLoaded(EnsureFullyLoaded(e, fs).value, fs) == EnsureFullyLoaded(e, fs)
  {
  }

  /** The headers of a fully loaded email are those of its parsed message. */
  lemma {:induction false} FullLoadReadsHeaders(e: Email, fs: Fs.Node, m: MailParser.Message)
    requires e.loadState == HeadersOnly
    requires Fs.ReadFile(fs, e.filePath) == Ok(Fs.Parsed(m))
    ensures EnsureFullyLoaded(e, fs) == Ok(EnsureFullyLoaded(e, fs).value)
    ensures EnsureFullyLoaded(e, fs).value.headers == HeadersOf(m)
    ensures |EnsureFullyLoaded(e, fs).value.attachments| == |e.attachments| + |m.attachments|
  {
  }

  predicate HasAttachments(e: Email) {
    |e.attachments| > 0
  }

  datatype Folder = Folder(
    name: string,
    path: Fs.Path,
    emails: seq<Email>,
    subfolders: seq<Folder>,
    unreadCount: nat,
    totalCount: nat,
    isLoaded: bool)

  /** `Folder::new`: no messages, no subfolders, not loaded. */
  function NewFolder(name: string, path: Fs.Path): Folder {
    Folder(name, path, [], [], 0, 0, false)
  }

  /** The number of unread messages in `s`. */
  function UnreadIn(s: seq<Email>): nat {
    if s == [] then 0 else UnreadIn(s[..|s| - 1]) + (if s[|s| - 1].isUnread then 1 else 0)
  }

  lemma {:induction false} UnreadInBound(s: seq<Email>)
    ensures UnreadIn(s) <= |s|
  {
    if s != [] {
      UnreadInBound(s[..|s| - 1]);
    }
  }

  /** The counters agree with the messages held. */
  predicate CountsConsistent(f: Folder) {
    f.totalCount == |f.emails| && f.unreadCount == UnreadIn(f.emails)
  }

  /** `Folder::add_email`: one more message at the end, counted. */
  function AddEmail(f: Folder, e: Email): (r: Folder)
    ensures r.emails == f.emails + [e]
    ensures r.totalCount == f.totalCount + 1
    ensures r.unreadCount == f.unreadCount + (if e.isUnread then 1 else 0)
    ensures r == f.(emails := r.emails, totalCount := r.totalCount, unreadCount := r.unreadCount)
  {
    f.(emails := f.emails + [e],
       unreadCount := f.unreadCount + (if e.isUnread then 1 else 0),
       totalCount := f.totalCount + 1)
  }

  /** Adding a message keeps the counters in step with the messages, so the unread
      count never exceeds the total. */
  lemma {:induction false} AddEmailKeepsCounts(f: Folder, e: Email)
    requires CountsConsistent(f)
    ensures CountsConsistent(AddEmail(f, e))
    ensures AddEmail(f, e).unreadCount <= AddEmail(f, e).totalCount
  {
    var r := AddEmail(f, e);
    assert r.emails[..|r.emails| - 1] == f.emails;
    UnreadInBound(r.emails);
  }

  /** `Folder::add_subfolder` */
  function AddSubfolder(f: Folder, sub: Folder): (r: Folder)
    ensures r.subfolders == f.subfolders + [sub]
    ensures r == f.(subfolders := r.subfolders)
  {
    f.(subfolders := f.subfolders + [sub])
  }

  // ----- The order of `get_sorted_subfolders` -----

  const Inbox: string := "INBOX"

  /** The comparator of `get_sorted_subfolders`: a child named exactly "INBOX"
      (case-sensitively) before all others, the rest by name. */
  predicate NameLe(a: string, b: string) {
    a == Inbox || (b != Inbox && LexLe(a, b))
  }

  lemma NameLeTotal(a: string, b: string)
    ensures NameLe(a, b) || NameLe(b, a)
  {
    LexLeTotal(a, b);
  }

  lemma NameLeTransitive(a: string, b: string, c: string)
    requires NameLe(a, b) && NameLe(b, c)
    ensures NameLe(a, c)
  {
    if a != Inbox {
      LexLeTransitive(a, b, c);
    }
  }

  predicate IndicesBelow(s: seq<nat>, n: nat) {
    forall i :: 0 <= i < |s| ==> s[i] < n
  }

  /** `s`, a sequence of child positions, lists children in comparator order. */
  predicate SortedBy(subs: seq<Folder>, s: seq<nat>)
    requires IndicesBelow(s, |subs|)
  {
    forall i, j :: 0 <= i < j < |s| ==> NameLe(subs[s[i]].name, subs[s[j]].name)
  }

  /** Insert position `k` after every position whose child does not sort after it
      (so that equal names keep their order, as the stable `sort_by` does). */
  function Insert(subs: seq<Folder>, k: nat, s: seq<nat>): (r: seq<nat>)
    requires k < |subs| && IndicesBelow(s, |subs|)
    ensures IndicesBelow(r, |subs|) && |r| == |s| + 1
  {
    if s == [] || !NameLe(subs[s[0]].name, subs[k].name) then [k] + s
    else [s[0]] + Insert(subs, k, s[1..])
  }

  /** Inserting adds `k` and keeps every other position. */
  lemma {:induction false} InsertPermutes(subs: seq<Folder>, k: nat, s: seq<nat>)
    requires k < |subs| && IndicesBelow(s, |subs|)
    ensures multiset(Insert(subs, k, s)) == multiset(s) + multiset{k}
  {
    if s != [] && NameLe(subs[s[0]].name, subs[k].name) {
      assert s == [s[0]] + s[1..];
      InsertPermutes(subs, k, s[1..]);
    }
  }

  lemma {:induction false} InsertSorted(subs: seq<Folder>, k: nat, s: seq<nat>)
    requires k < |subs| && IndicesBelow(s, |subs|) && SortedBy(subs, s)
    ensures SortedBy(subs, Insert(subs, k, s))
  {
    var r := Insert(subs, k, s);
    if s == [] {
    } else if !NameLe(subs[s[0]].name, subs[k].name) {
      NameLeTotal(subs[s[0]].name, subs[k].name);
      forall j | 1 <= j < |r|
        ensures NameLe(subs[k].name, subs[r[j]].name)
      {
        assert r[j] == s[j - 1];
        if j > 1 {
          NameLeTransitive(subs[k].name, subs[s[0]].name, subs[s[j - 1]].name);
        }
      }
    } else {
      InsertSorted(subs, k, s[1..]);
      var t := Insert(subs, k, s[1..]);
      forall j | 0 <= j < |t|
        ensures NameLe(subs[s[0]].name, subs[t[j]].name)
      {
        InsertPermutes(subs, k, s[1..]);
        assert t[j] in multiset(t);
        assert t[j] == k || t[j] in multiset(s[1..]);
        if t[j] != k {
          var m :| 0 <= m < |s[1..]| && s[1..][m] == t[j];
          assert s[m + 1] == t[j];
        }
      }
    }
  }

  /** The positions 0 .. n-1. */
  function Range(n: nat): (r: seq<nat>)
    ensures |r| == n && forall i :: 0 <= i < n ==> r[i] == i
  {
    seq(n, i requires 0 <= i < n => i)
  }

  /** The first `n` child positions, insertion-sorted by the comparator. */
  function SortPrefix(subs: seq<Folder>, n: nat): (r: seq<nat>)
    requires n <= |subs|
    ensures IndicesBelow(r, |subs|) && |r| == n
  {
    if n == 0 then [] else Insert(subs, n - 1, SortPrefix(subs, n - 1))
  }

  /** The sorted prefix holds each of the positions 0 .. n-1 once. */
  lemma {:induction false} SortPrefixPermutes(subs: seq<Folder>, n: nat)
    requires n <= |subs|
    ensures multiset(SortPrefix(subs, n)) == multiset(Range(n))
  {
    if n > 0 {
      var prev := SortPrefix(subs, n - 1);
      var cur := SortPrefix(subs, n);
      assert cur == Insert(subs, n - 1, prev);
      var before, last := multiset(Range(n - 1)), multiset{(n - 1) as nat};
      SortPrefixPermutes(subs, n - 1);
      InsertPermutes(subs, n - 1, prev);
      assert multiset(cur) == before + last;
      RangeSnoc(n);
      assert multiset(Range(n)) == before + last;
    } else {
      assert Range(0) == [];
    }
  }

  lemma RangeSnoc(n: nat)
    requires n > 0
    ensures multiset(Range(n)) == multiset(Range(n - 1)) + multiset{(n - 1) as nat}
  {
    assert Range(n) == Range(n - 1) + [n - 1];
  }

  lemma {:induction false} SortPrefixSorted(subs: seq<Folder>, n: nat)
    requires n <= |subs|
    ensures SortedBy(subs, SortPrefix(subs, n))
  {
    if n > 0 {
      var prev := SortPrefix(subs, n - 1);
      assert SortPrefix(subs, n) == Insert(subs, n - 1, prev);
      SortPrefixSorted(subs, n - 1);
      InsertSorted(subs, n - 1, prev);
    }
  }

  /** The raw child positions in the order `get_sorted_subfolders` lists them. */
  function SortedOrder(f: Folder): (r: seq<nat>)
    ensures |r| == |f.subfolders|
    ensures IndicesBelow(r, |f.subfolders|)
  {
    SortPrefix(f.subfolders, |f.subfolders|)
  }

  /** `Folder::get_sorted_subfolders` */
  function SortedSubfolders(f: Folder): (r: seq<Folder>)
    ensures |r| == |f.subfolders|
  {
    var o := SortedOrder(f);
    seq(|o|, i requires 0 <= i < |o| => f.subfolders[o[i]])
  }

  /** Every child appears exactly once in the sorted order, and the order is
      ascending under the comparator. */
  lemma SortedOrderIsSortedPermutation(f: Folder)
    ensures multiset(SortedOrder(f)) == multiset(Range(|f.subfolders|))
    ensures SortedBy(f.subfolders, SortedOrder(f))
  {
    SortPrefixPermutes(f.subfolders, |f.subfolders|);
    SortPrefixSorted(f.subfolders, |f.subfolders|);
  }

  /** The sorted children are a rearrangement of the children. */
  lemma SortedSubfoldersPermutation(f: Folder)
    ensures multiset(SortedSubfolders(f)) == multiset(f.subfolders)
  {
    PickSortPrefix(f.subfolders, |f.subfolders|);
    assert f.subfolders[..|f.subfolders|] == f.subfolders;
    assert Pick(f.subfolders, SortedOrder(f)) == SortedSubfolders(f);
  }

  function Pick(subs: seq<Folder>, s: seq<nat>): (r: seq<Folder>)
    requires IndicesBelow(s, |subs|)
    ensures |r| == |s| && forall i :: 0 <= i < |s| ==> r[i] == subs[s[i]]
  {
    seq(|s|, i requires 0 <= i < |s| => subs[s[i]])
  }

  lemma PickCons(subs: seq<Folder>, k: nat, s: seq<nat>)
    requires k < |subs| && IndicesBelow(s, |subs|)
    ensures Pick(subs, [k] + s) == [subs[k]] + Pick(subs, s)
  {
    var t := [k] + s;
    assert forall i :: 0 <= i < |t| ==> t[i] == if i == 0 then k else s[i - 1];
  }

  lemma {:induction false} PickInsert(subs: seq<Folder>, k: nat, s: seq<nat>)
    requires k < |subs| && IndicesBelow(s, |subs|)
    ensures multiset(Pick(subs, Insert(subs, k, s))) == multiset(Pick(subs, s)) + multiset{subs[k]}
  {
    if s == [] || !NameLe(subs[s[0]].name, subs[k].name) {
      PickCons(subs, k, s);
    } else {
      var h, tail := s[0], s[1..];
      assert s == [h] + tail;
      var t := Insert(subs, k, tail);
      assert Insert(subs, k, s) == [h] + t;
      PickInsert(subs, k, tail);
      PickCons(subs, h, t);
      PickCons(subs, h, tail);
    }
  }

  lemma {:induction false} PickSortPrefix(subs: seq<Folder>, n: nat)
    requires n <= |subs|
    ensures multiset(Pick(subs, SortPrefix(subs, n))) == multiset(subs[..n])
  {
    if n == 0 {
      assert Pick(subs, SortPrefix(subs, 0)) == [];
    } else {
      var prev := SortPrefix(subs, n - 1);
      assert SortPrefix(subs, n) == Insert(subs, n - 1, prev);
      var a := multiset(Pick(subs, prev));
      PickSortPrefix(subs, n - 1);
      assert a == multiset(subs[..n - 1]);
      PickInsert(subs, n - 1, prev);
      MultisetOfTake(subs, n);
    }
  }

  lemma MultisetOfTake<T>(s: seq<T>, n: nat)
    requires 0 < n <= |s|
    ensures multiset(s[..n]) == multiset(s[..n - 1]) + multiset{s[n - 1]}
  {
    assert s[..n] == s[..n - 1] + [s[n - 1]];
  }

  /** A child named exactly "INBOX" is listed first. */
  lemma {:induction false} InboxSortsFirst(f: Folder, k: nat)
    requires k < |f.subfolders| && f.subfolders[k].name == Inbox
    ensures SortedSubfolders(f)[0].name == Inbox
  {
    var o := SortedOrder(f);
    SortedOrderIsSortedPermutation(f);
    assert k in multiset(Range(|f.subfolders|)) by {
      assert Range(|f.subfolders|)[k] == k;
    }
    var m :| 0 <= m < |o| && o[m] == k;
    if m > 0 {
      assert NameLe(f.subfolders[o[0]].name, f.subfolders[o[m]].name);
    }
  }

  /** Among children not named "INBOX", the sorted order is ascending by name. */
  lemma SortedOthersAscending(f: Folder, i: nat, j: nat)
    requires i < j < |f.subfolders|
    requires SortedSubfolders(f)[i].name != Inbox
    ensures LexLe(SortedSubfolders(f)[i].name, SortedSubfolders(f)[j].name)
  {
    SortedOrderIsSortedPermutation(f);
  }

  /** `Folder::get_display_name` */
  function DisplayName(f: Folder): (r: string)
    ensures StartsWith(r, f.name)
    ensures r == f.name <==> f.unreadCount == 0
    ensures f.unreadCount > 0 ==> r == f.name + " (" + NatToString(f.unreadCount) + ")"
  {
    if f.unreadCount > 0 then f.name + " (" + NatToString(f.unreadCount) + ")" else f.name
  }

  /** `Folder::get_all_emails`: this folder's messages, then each subfolder's, depth first. */
  function AllEmails(f: Folder): seq<Email>
    decreases f
  {
    f.emails + AllEmailsIn(f.subfolders)
  }

  function AllEmailsIn(s: seq<Folder>): seq<Email>
    decreases s
  {
    if s == [] then [] else AllEmails(s[0]) + AllEmailsIn(s[1..])
  }

  /** The number of messages held in a tree of folders, counted folder by folder. */
  function EmailCount(f: Folder): nat
    decreases f
  {
    |f.emails| + EmailCountIn(f.subfolders)
  }

  function EmailCountIn(s: seq<Folder>): nat
    decreases s
  {
    if s == [] then 0 else EmailCount(s[0]) + EmailCountIn(s[1..])
  }

  /** Nothing is lost or repeated: every message of the tree is listed once. */
  lemma {:induction false} AllEmailsCount(f: Folder)
    ensures |AllEmails(f)| == EmailCount(f)
    decreases f, 1
  {
    AllEmailsInCount(f.subfolders);
  }

  lemma {:induction false} AllEmailsInCount(s: seq<Folder>)
    ensures |AllEmailsIn(s)| == EmailCountIn(s)
    decreases s, 0
  {
    if s != [] {
      AllEmailsCount(s[0]);
      AllEmailsInCount(s[1..]);
    }
  }

  /** The messages of every subfolder, at any depth, are among all messages. */
  lemma {:induction false} AllEmailsContainsChild(f: Folder, i: nat)
    requires i < |f.subfolders|
    ensures multiset(f.emails) <= multiset(AllEmails(f))
    ensures multiset(AllEmails(f.subfolders[i])) <= multiset(AllEmails(f))
  {
    AllEmailsInContains(f.subfolders, i);
  }

  lemma {:induction false} AllEmailsInContains(s: seq<Folder>, i: nat)
    requires i < |s|
    ensures multiset(AllEmails(s[i])) <= multiset(AllEmailsIn(s))
    decreases i
  {
    if i > 0 {
      AllEmailsInContains(s[1..], i - 1);
    }
  }
}
