/** The text the interface computes before drawing (`src/ui.rs`): display widths,
    truncation and padding to a column, the sender column, the column widths of
    the message list, the folder-pane rows, the sent-folder test and the title of
    the message pane. The drawing itself is not modelled. */
module Ui {
  import opened Wrappers
  import opened Text
  import opened Mail
  import opened Store
  import opened FolderList
  import opened App

  // ----- Display width -----

  /** The number of terminal columns of a character: 0 for control characters,
      combining marks and zero-width spaces, 2 for the wide East Asian and emoji
      blocks, 1 otherwise (a simplified table of the `unicode-width` crate). */
  function CharWidth(c: char): (w: nat)
    ensures w <= 2
    ensures ' ' <= c <= '~' ==> w == 1
  {
    var n := c as int;
    if n < 0x20 || (0x7F <= n < 0xA0) then 0
    else if (0x300 <= n <= 0x36F) || (0x200B <= n <= 0x200F) then 0
    else if (0x1100 <= n <= 0x115F) || (0x2E80 <= n <= 0xA4CF) || (0xAC00 <= n <= 0xD7A3)
         || (0xF900 <= n <= 0xFAFF) || (0xFE30 <= n <= 0xFE4F) || (0xFF00 <= n <= 0xFF60)
         || (0xFFE0 <= n <= 0xFFE6) || (0x1F300 <= n <= 0x1F64F) || (0x1F680 <= n <= 0x1F6FF)
         || (0x1F900 <= n <= 0x1F9FF) || (0x20000 <= n <= 0x3FFFD) then 2
    else 1
  }

  /** `str::width`: the sum of the widths of the characters. */
  function Width(s: string): nat {
    if s == [] then 0 else CharWidth(s[0]) + Width(s[1..])
  }

  lemma {:induction false} WidthAppend(a: string, b: string)
    ensures Width(a + b) == Width(a) + Width(b)
  {
    if a == [] {
      assert a + b == b;
    } else {
      assert (a + b)[0] == a[0] && (a + b)[1..] == a[1..] + b;
      WidthAppend(a[1..], b);
    }
  }

  /** A longer prefix is at least as wide. */
  lemma PrefixWidthGrows(s: string, i: nat, j: nat)
    requires i <= j <= |s|
    ensures Width(s[..i]) <= Width(s[..j])
  {
    assert s[..j] == s[..i] + s[i..j];
    WidthAppend(s[..i], s[i..j]);
  }

  lemma PrefixWidthStep(s: string, i: nat)
    requires i < |s|
    ensures Width(s[..i + 1]) == Width(s[..i]) + CharWidth(s[i])
  {
    assert s[..i + 1] == s[..i] + [s[i]];
    WidthAppend(s[..i], [s[i]]);
  }

  lemma {:induction false} SpacesWidth(n: nat)
    ensures Width(Repeat(" ", n)) == n
  {
    if n > 0 {
      SpacesWidth(n - 1);
      WidthAppend(" ", Repeat(" ", n - 1));
    }
  }

  // ----- truncate_with_ellipsis -----

  /** The number of leading characters that fit in `limit` columns, taken one by one
      until the next one would overflow. */
  function FitLength(text: string, limit: nat): (k: nat)
    ensures k <= |text|
  {
    if text == [] || CharWidth(text[0]) > limit then 0
    else 1 + FitLength(text[1..], limit - CharWidth(text[0]))
  }

  /** The prefix of `FitLength` characters fits, and one more character would not:
      it is the longest prefix that fits. */
  lemma {:induction false} FitLengthFits(text: string, limit: nat)
    ensures Width(text[..FitLength(text, limit)]) <= limit
    ensures FitLength(text, limit) < |text| ==> Width(text[..FitLength(text, limit) + 1]) > limit
  {
    var k := FitLength(text, limit);
    if text == [] {
    } else if CharWidth(text[0]) > limit {
      assert text[..1] == [text[0]];
    } else {
      var w := CharWidth(text[0]);
      FitLengthFits(text[1..], limit - w);
      assert text[..k] == [text[0]] + text[1..][..k - 1];
      WidthAppend([text[0]], text[1..][..k - 1]);
      if k < |text| {
        assert text[..k + 1] == [text[0]] + text[1..][..k];
        WidthAppend([text[0]], text[1..][..k]);
      }
    }
  }

  /** A prefix that fits while the next character would not is the `FitLength` one. */
  lemma FitLengthUnique(text: string, limit: nat, k: nat)
    requires k <= |text| && Width(text[..k]) <= limit
    requires k == |text| || Width(text[..k + 1]) > limit
    ensures k == FitLength(text, limit)
  {
    var f := FitLength(text, limit);
    FitLengthFits(text, limit);
    if k < f {
      PrefixWidthGrows(text, k + 1, f);
    } else if f < k {
      PrefixWidthGrows(text, f + 1, k);
    }
  }

  /** The loop of `truncate_with_ellipsis` over the characters of `text`: the length
      of the prefix it keeps. */
  method FitPrefix(text: string, limit: nat) returns (truncationPoint: nat)
    ensures truncationPoint == FitLength(text, limit)
  {
    var currentWidth := 0;
    truncationPoint := 0;
    var i := 0;
    while i < |text|
      invariant 0 <= i <= |text| && truncationPoint == i
      invariant currentWidth == Width(text[..i]) <= limit
    {
      var chWidth := CharWidth(text[i]);
      if currentWidth + chWidth > limit {
        PrefixWidthStep(text, i);
        break;
      }
      PrefixWidthStep(text, i);
      currentWidth := currentWidth + chWidth;
      truncationPoint := i + 1;
      i := i + 1;
    }
    FitLengthUnique(text, limit, truncationPoint);
  }

  /** What `truncate_with_ellipsis` returns. */
  function Truncated(text: string, maxWidth: nat): string {
    if Width(text) <= maxWidth then text
    else if maxWidth > 3 then text[..FitLength(text, maxWidth - 3)] + "..."
    else text[..FitLength(text, maxWidth)]
  }

  /** `truncate_with_ellipsis` */
  method TruncateWithEllipsis(text: string, maxWidth: nat) returns (r: string)
    ensures r == Truncated(text, maxWidth)
  {
    if Width(text) <= maxWidth {
      r := text;
    } else if maxWidth > 3 {
      var k := FitPrefix(text, maxWidth - 3);
      r := text[..k] + "...";
    } else {
      var k := FitPrefix(text, maxWidth);
      r := text[..k];
    }
  }

  /** Text that fits is kept; otherwise the result is a prefix, followed by `...`
      when the column is wider than 3, and it never exceeds the column. The prefix
      is the longest that leaves room for the ellipsis. */
  lemma TruncatedProperties(text: string, maxWidth: nat)
    ensures Width(text) <= maxWidth ==> Truncated(text, maxWidth) == text
    ensures Width(Truncated(text, maxWidth)) <= maxWidth
    ensures Width(text) > maxWidth && maxWidth > 3 ==>
              exists k :: 0 <= k < |text| && Truncated(text, maxWidth) == text[..k] + "..."
                && Width(text[..k + 1]) > maxWidth - 3
    ensures Width(text) > maxWidth && maxWidth <= 3 ==>
              exists k :: 0 <= k < |text| && Truncated(text, maxWidth) == text[..k]
                && Width(text[..k + 1]) > maxWidth
  {
    if Width(text) > maxWidth {
      assert text[..|text|] == text;
      if maxWidth > 3 {
        var k := FitLength(text, maxWidth - 3);
        FitLengthFits(text, maxWidth - 3);
        WidthAppend(text[..k], "...");
        assert Width("...") == 3;
      } else {
        FitLengthFits(text, maxWidth);
      }
    }
  }

  /** A character of non-zero width that no longer fits before the ellipsis is
      dropped whole, with everything after it. */
  lemma OverflowingCharDropped(p: string, c: char, rest: string, maxWidth: nat)
    requires maxWidth > 3 && Width(p) == maxWidth - 3 && CharWidth(c) > 0
    requires Width(p + [c] + rest) > maxWidth
    ensures Truncated(p + [c] + rest, maxWidth) == p + "..."
  {
    var t := p + [c] + rest;
    assert t[..|p|] == p && t[|p|] == c;
    PrefixWidthStep(t, |p|);
    FitLengthUnique(t, maxWidth - 3, |p|);
  }

  /** A case of `test_truncate_with_ellipsis`: a two-column character that does not
      fit before the ellipsis is dropped whole. */
  lemma TruncatedAtWideChar()
    ensures Truncated("Test \U{1F389}\U{1F38A}\U{1F388}", 8) == "Test ..."
  {
    var p, rest := "Test ", "\U{1F38A}\U{1F388}";
    assert "Test \U{1F389}\U{1F38A}\U{1F388}" == p + ['\U{1F389}'] + rest;
    assert Width(p) == 5;
    assert Width(['\U{1F389}'] + rest) == 6;
    WidthAppend(p, ['\U{1F389}'] + rest);
    assert p + ['\U{1F389}'] + rest == p + (['\U{1F389}'] + rest);
    OverflowingCharDropped(p, '\U{1F389}', rest, 8);
    assert p + "..." == "Test ...";
  }

  // ----- pad_to_width -----

  /** `pad_to_width` */
  function PadToWidth(text: string, targetWidth: nat): string {
    if Width(text) >= targetWidth then text else text + Repeat(" ", targetWidth - Width(text))
  }

  /** The padded text starts with the text, continues with spaces only, and is as
      wide as the wider of the text and the target. */
  lemma PadToWidthProperties(text: string, targetWidth: nat)
    ensures StartsWith(PadToWidth(text, targetWidth), text)
    ensures forall i :: |text| <= i < |PadToWidth(text, targetWidth)| ==> PadToWidth(text, targetWidth)[i] == ' '
    ensures Width(PadToWidth(text, targetWidth)) == if Width(text) >= targetWidth then Width(text) else targetWidth
  {
    if Width(text) < targetWidth {
      var n := targetWidth - Width(text);
      var r := PadToWidth(text, targetWidth);
      SpacesWidth(n);
      RepeatSingle(' ', n);
      WidthAppend(text, Repeat(" ", n));
      assert r[..|text|] == text;
      forall i | |text| <= i < |r|
        ensures r[i] == ' '
      {
        assert r[i] == Repeat(" ", n)[i - |text|];
      }
    }
  }

  /** A truncated then padded column is exactly as wide as the column. */
  lemma ColumnWidthExact(text: string, width: nat)
    ensures Width(PadToWidth(Truncated(text, width), width)) == width
  {
    TruncatedProperties(text, width);
    PadToWidthProperties(Truncated(text, width), width);
  }

  // ----- extract_email_address -----

  /** `extract_email_address`: the name before ` <`, else the local part before
      `@`, else the whole field. */
  function ExtractEmailAddress(fromField: string): (r: string)
    ensures StartsWith(fromField, r)
    ensures r != fromField ==> OccursAt(fromField, " <", |r|) || OccursAt(fromField, "@", |r|)
    ensures !Contains(r, " <") && (!Contains(fromField, " <") ==> !Contains(r, "@"))
    ensures Contains(fromField, " <") ==> OccursAt(fromField, " <", |r|)
  {
    match Find(fromField, " <")
    case Some(nameEnd) => PrefixContains(fromField, " <", nameEnd); fromField[..nameEnd]
    case None =>
      if Contains(fromField, "@") then
        match Find(fromField, "@")
        case Some(atPos) =>
          PrefixContains(fromField, "@", atPos);
          PrefixLacks(fromField, " <", atPos);
          fromField[..atPos]
        case None => fromField
      else fromField
  }

  /** A prefix ending before the first occurrence of `pat` does not contain it. */
  lemma PrefixContains(s: string, pat: string, n: nat)
    requires pat != [] && n <= |s| && forall j: nat :: j < n ==> !OccursAt(s, pat, j)
    ensures !Contains(s[..n], pat)
  {
    forall j: nat | j <= n
      ensures !OccursAt(s[..n], pat, j)
    {
      if j + |pat| <= n {
        assert s[..n][j..j + |pat|] == s[j..j + |pat|];
        assert !OccursAt(s, pat, j);
      }
    }
  }

  /** What a text does not contain, no prefix of it contains. */
  lemma PrefixLacks(s: string, pat: string, n: nat)
    requires n <= |s| && !Contains(s, pat)
    ensures !Contains(s[..n], pat)
  {
    forall j: nat | j <= n && OccursAt(s[..n], pat, j)
      ensures OccursAt(s, pat, j)
    {
      assert s[..n][j..j + |pat|] == s[j..j + |pat|];
    }
  }

  /** The `Name <address>` form of a sender. */
  function FormatMailbox(name: string, address: string): string {
    name + " <" + address + ">"
  }

  /** Round trip: the name of a `Name <address>` sender is recovered. */
  lemma ExtractName(name: string, address: string)
    requires !Contains(name, " <")
    ensures ExtractEmailAddress(FormatMailbox(name, address)) == name
  {
    var s := FormatMailbox(name, address);
    assert s[..|name|] == name;
    assert s[|name|..|name| + 2] == " <";
    assert OccursAt(s, " <", |name|);
    forall j: nat | j < |name|
      ensures !OccursAt(s, " <", j)
    {
      if j + 1 < |name| {
        assert s[j..j + 2] == name[j..j + 2];
        assert !OccursAt(name, " <", j);
      } else {
        assert s[j + 1] == ' ';
      }
    }
  }

  /** A plain address `local@domain` gives its local part. */
  lemma ExtractLocalPart(local: string, domain: string)
    requires '@' !in local && !Contains(local + "@" + domain, " <")
    ensures ExtractEmailAddress(local + "@" + domain) == local
  {
    var s := local + "@" + domain;
    assert s[..|local|] == local;
    assert s[|local|..|local| + 1] == "@";
    assert OccursAt(s, "@", |local|);
    forall j: nat | j < |local|
      ensures !OccursAt(s, "@", j)
    {
      assert s[j..j + 1][0] == local[j];
    }
  }

  /** A field with neither form is shown whole. */
  lemma ExtractPlain(field: string)
    requires !Contains(field, " <") && !Contains(field, "@")
    ensures ExtractEmailAddress(field) == field
  {
  }

  /** A ` <` wins over an `@` before it: `a@b <c>` is shown as `a@b`. */
  lemma ExtractAtBeforeName()
    ensures ExtractEmailAddress("a@b <c>") == "a@b"
  {
    var f := "a@b <c>";
    assert OccursAt(f, " <", 3);
    var r := ExtractEmailAddress(f);
    var k := |r|;
    assert f[k..k + 2][0] == f[k] == ' ';
    assert k == 3;
    assert r == f[..3];
  }

  // ----- build_email_list_with_truncation -----

  const UnreadWidth: nat := 2
  const DateWidth: nat := 10
  const AttachmentWidth: nat := 3
  const Separators: nat := 8

  /** The width of the sender column: 30% of the row, at least 15 and at most 25. */
  function FromWidth(availableWidth: nat): (w: nat)
    ensures 15 <= w <= 25
    ensures 15 <= availableWidth * 30 / 100 <= 25 ==> w == availableWidth * 30 / 100
  {
    Min(Max(15, availableWidth * 30 / 100), 25)
  }

  /** `usize::saturating_sub` */
  function SaturatingSub(a: nat, b: nat): nat { if a >= b then a - b else 0 }

  function SubjectWidth(availableWidth: nat, fromWidth: nat): nat {
    SaturatingSub(SaturatingSub(SaturatingSub(SaturatingSub(SaturatingSub(
      availableWidth, UnreadWidth), fromWidth), DateWidth), AttachmentWidth), Separators)
  }

  /** The subject gets what the fixed columns leave, and nothing when they do not fit. */
  lemma SubjectWidthIsRemainder(availableWidth: nat, fromWidth: nat)
    ensures availableWidth >= fromWidth + 23 ==> SubjectWidth(availableWidth, fromWidth) == availableWidth - fromWidth - 23
    ensures availableWidth < fromWidth + 23 ==> SubjectWidth(availableWidth, fromWidth) == 0
  {
  }

  /** The text of one row of the message list, span by span. */
  datatype Row = Row(unread: string, sender: string, subject: string, icon: string, date: string)

  /** One row; `dateText` stands for `format_email_date` of the message's date,
      which reads the local clock. */
  function EmailRow(e: Email, availableWidth: nat, isSentFolder: bool, dateText: string): Row {
    var fromWidth := FromWidth(availableWidth);
    var subjectWidth := SubjectWidth(availableWidth, fromWidth);
    var sender := ExtractEmailAddress(if isSentFolder then e.headers.to else e.headers.from);
    var subject := if e.headers.subject == [] then "(No Subject)" else e.headers.subject;
    Row(if e.isUnread then "•" else " ",
        PadToWidth(Truncated(sender, fromWidth), fromWidth),
        PadToWidth(Truncated(subject, subjectWidth), subjectWidth),
        if HasAttachments(e) then "\U{1F4CE}" else "  ",
        dateText)
  }

  /** The columns line up: in every row the sender and subject spans are exactly as
      wide as their columns and the icon span is two columns wide. */
  lemma EmailRowColumns(e: Email, availableWidth: nat, isSentFolder: bool, dateText: string)
    ensures Width(EmailRow(e, availableWidth, isSentFolder, dateText).unread) == 1
    ensures Width(EmailRow(e, availableWidth, isSentFolder, dateText).sender) == FromWidth(availableWidth)
    ensures Width(EmailRow(e, availableWidth, isSentFolder, dateText).subject)
         == SubjectWidth(availableWidth, FromWidth(availableWidth))
    ensures Width(EmailRow(e, availableWidth, isSentFolder, dateText).icon) == 2
  {
    var row := EmailRow(e, availableWidth, isSentFolder, dateText);
    var fromWidth := FromWidth(availableWidth);
    var sender := ExtractEmailAddress(if isSentFolder then e.headers.to else e.headers.from);
    var subject := if e.headers.subject == [] then "(No Subject)" else e.headers.subject;
    assert row.sender == PadToWidth(Truncated(sender, fromWidth), fromWidth);
    assert row.subject == PadToWidth(Truncated(subject, SubjectWidth(availableWidth, fromWidth)), SubjectWidth(availableWidth, fromWidth));
    ColumnWidthExact(sender, fromWidth);
    ColumnWidthExact(subject, SubjectWidth(availableWidth, fromWidth));
    MarkWidths();
  }

  /** The unread mark and the attachment icon, or the blanks in their place, are
      one and two columns wide. */
  lemma MarkWidths()
    ensures Width("•") == 1 && Width(" ") == 1 && Width("\U{1F4CE}") == 2 && Width("  ") == 2
  {
  }

  /** `build_email_list_with_truncation`: one row per message, in order;
      `dates[i]` is the date text of message `i`. */
  function BuildEmailList(emails: seq<Email>, availableWidth: nat, isSentFolder: bool, dates: seq<string>): (r: seq<Row>)
    requires |dates| == |emails|
    ensures |r| == |emails|
    ensures forall i :: 0 <= i < |emails| ==> r[i] == EmailRow(emails[i], availableWidth, isSentFolder, dates[i])
  {
    if emails == [] then []
    else [EmailRow(emails[0], availableWidth, isSentFolder, dates[0])]
         + BuildEmailList(emails[1..], availableWidth, isSentFolder, dates[1..])
  }

  // ----- The message pane -----

  /** A folder is a sent folder when it is named `Sent` or its lower-cased name
      contains `sent`. */
  predicate IsSentFolder(name: string) {
    name == "Sent" || Contains(ToLowerAscii(name), "sent")
  }

  /** The test for the name `Sent` adds nothing: it is a case of the second test. */
  lemma SentNameTestSubsumed(name: string)
    ensures IsSentFolder(name) <==> Contains(ToLowerAscii(name), "sent")
  {
    if name == "Sent" {
      assert ToLowerAscii(name) == "sent";
      assert OccursAt(ToLowerAscii(name), "sent", 0);
    }
  }

  /** The folder whose messages the pane shows: the folder under the cursor in the
      folder-and-messages view, the current folder otherwise. */
  function FolderToDisplay(m: AppModel): Folder {
    if m.currentView == FolderMessages then
      match SelectedFolder(m)
      case Some(f) => f
      case None => CurrentFolder(m.store)
    else CurrentFolder(m.store)
  }

  /** The breadcrumb in the title, for the same folder. */
  function PaneFolderPath(m: AppModel): string {
    if m.currentView == FolderMessages then
      match GetFolderPathFromDisplayIndex(m.store.root, m.selection.folderIndex)
      case Some(p) => Breadcrumb(m.store.root, p)
      case None => Breadcrumb(m.store.root, m.store.currentFolder)
    else Breadcrumb(m.store.root, m.store.currentFolder)
  }

  /** The title of the message pane. */
  function EmailPaneTitle(folderPath: string, count: nat, isLoaded: bool): string {
    "Emails - " + folderPath + " (" + NatToString(count) + (if isLoaded then ")" else "/...)")
  }

  /** The title tells a partly loaded folder: it ends with `/...)` exactly when the
      folder is not fully loaded. */
  lemma TitleShowsPartialLoad(folderPath: string, count: nat, isLoaded: bool)
    ensures EndsWith(EmailPaneTitle(folderPath, count, isLoaded), "/...)") <==> !isLoaded
  {
    var t := EmailPaneTitle(folderPath, count, isLoaded);
    var prefix := "Emails - " + folderPath + " (" + NatToString(count);
    if isLoaded {
      assert t == prefix + ")";
      var d := NatToString(count);
      assert t[|t| - 2] == d[|d| - 1];
      assert IsDigit(d[|d| - 1]);
    } else {
      assert t == prefix + "/...)";
      assert t[|t| - 5..] == "/...)";
    }
  }

  /** The title of the pane for an application state. */
  function MessagesPaneTitle(m: AppModel): string {
    var f := FolderToDisplay(m);
    EmailPaneTitle(PaneFolderPath(m), |f.emails|, f.isLoaded)
  }

  // ----- build_folder_list_static -----

  /** The text of one folder row: two spaces per level below the first, then the
      display name. */
  function FolderRowText(f: Folder, depth: nat): string
    requires depth >= 1
  {
    Repeat("  ", depth - 1) + DisplayName(f)
  }

  /** `build_folder_list_static`: the rows for `folder` (none for the root) and all
      below it, children in sorted order. */
  function BuildFolderListStatic(folder: Folder, depth: nat): seq<string>
    decreases folder, 1
  {
    (if depth > 0 then [FolderRowText(folder, depth)] else [])
    + StaticChildren(folder, depth, SortedOrder(folder))
  }

  function StaticChildren(folder: Folder, depth: nat, order: seq<nat>): seq<string>
    requires IndicesBelow(order, |folder.subfolders|)
    decreases folder, 0, |order|
  {
    if order == [] then []
    else BuildFolderListStatic(folder.subfolders[order[0]], depth + 1) + StaticChildren(folder, depth, order[1..])
  }

  /** The text of each row of the flat folder list. */
  function RowTexts(entries: seq<FlatEntry>): (r: seq<string>)
    requires forall i :: 0 <= i < |entries| ==> entries[i].depth >= 1
    ensures |r| == |entries|
  {
    if entries == [] then [] else [FolderRowText(entries[0].folder, entries[0].depth)] + RowTexts(entries[1..])
  }

  lemma {:induction false} RowTextsAppend(a: seq<FlatEntry>, b: seq<FlatEntry>)
    requires forall i :: 0 <= i < |a| ==> a[i].depth >= 1
    requires forall i :: 0 <= i < |b| ==> b[i].depth >= 1
    ensures RowTexts(a + b) == RowTexts(a) + RowTexts(b)
  {
    if a == [] {
      assert a + b == b;
    } else {
      assert (a + b)[0] == a[0] && (a + b)[1..] == a[1..] + b;
      RowTextsAppend(a[1..], b);
    }
  }

  predicate DeepEnough(entries: seq<FlatEntry>, depth: nat) {
    forall i :: 0 <= i < |entries| ==> entries[i].depth >= depth
  }

  lemma {:induction false} FlatFromDepth(f: Folder, depth: nat, path: seq<nat>)
    ensures DeepEnough(FlatFrom(f, depth, path), if depth == 0 then 1 else depth)
    decreases f, 1
  {
    FlatChildrenDepth(f, depth, path, SortedOrder(f));
  }

  lemma {:induction false} FlatChildrenDepth(f: Folder, depth: nat, path: seq<nat>, order: seq<nat>)
    requires IndicesBelow(order, |f.subfolders|)
    ensures DeepEnough(FlatChildren(f, depth, path, order), depth + 1)
    decreases f, 0, |order|
  {
    if order != [] {
      FlatFromDepth(f.subfolders[order[0]], depth + 1, path + [order[0]]);
      FlatChildrenDepth(f, depth, path, order[1..]);
    }
  }

  /** The folder pane draws, row for row, the flat list the cursor indexes: the
      same folders in the same sorted pre-order, each indented by its depth. */
  lemma {:induction false} StaticMatchesFlat(f: Folder, depth: nat, path: seq<nat>)
    ensures DeepEnough(FlatFrom(f, depth, path), 1)
    ensures BuildFolderListStatic(f, depth) == RowTexts(FlatFrom(f, depth, path))
    decreases f, 1
  {
    FlatFromDepth(f, depth, path);
    var head := if depth > 0 then [FlatEntry(f, depth, path)] else [];
    var kids := FlatChildren(f, depth, path, SortedOrder(f));
    FlatChildrenDepth(f, depth, path, SortedOrder(f));
    StaticChildrenMatch(f, depth, path, SortedOrder(f));
    RowTextsAppend(head, kids);
  }

  lemma {:induction false} StaticChildrenMatch(f: Folder, depth: nat, path: seq<nat>, order: seq<nat>)
    requires IndicesBelow(order, |f.subfolders|)
    ensures DeepEnough(FlatChildren(f, depth, path, order), 1)
    ensures StaticChildren(f, depth, order) == RowTexts(FlatChildren(f, depth, path, order))
    decreases f, 0, |order|
  {
    FlatChildrenDepth(f, depth, path, order);
    if order != [] {
      var c := order[0];
      StaticMatchesFlat(f.subfolders[c], depth + 1, path + [c]);
      StaticChildrenMatch(f, depth, path, order[1..]);
      RowTextsAppend(FlatFrom(f.subfolders[c], depth + 1, path + [c]), FlatChildren(f, depth, path, order[1..]));
    }
  }

  /** The folder pane has one row per row of the flat list, and row `i` shows the
      folder of flat row `i`. */
  lemma FolderPaneRows(root: Folder, i: nat)
    requires i < |FlatList(root)|
    ensures |BuildFolderListStatic(root, 0)| == |FlatList(root)|
    ensures FlatList(root)[i].depth >= 1
    ensures BuildFolderListStatic(root, 0)[i] == FolderRowText(FlatList(root)[i].folder, FlatList(root)[i].depth)
  {
    StaticMatchesFlat(root, 0, []);
    RowTextsAt(FlatList(root), i);
  }

  lemma {:induction false} RowTextsAt(entries: seq<FlatEntry>, i: nat)
    requires forall j :: 0 <= j < |entries| ==> entries[j].depth >= 1
    requires i < |entries|
    ensures RowTexts(entries)[i] == FolderRowText(entries[i].folder, entries[i].depth)
  {
    if i > 0 {
      RowTextsAt(entries[1..], i - 1);
    }
  }
}
