/** The application state (`src/app.rs`): the view and pane tables, the state machine
    that moves between panes and views, the selection memory kept across those
    moves, scrolling, and the start-up choice of the INBOX folder. */
module App {
  import opened Wrappers
  import opened Text
  import Fs
  import opened Mail
  import Maildir
  import opened Store
  import opened FolderList

  datatype AppState = FolderView | EmailList | EmailContent | AttachmentView | Help | Quit

  datatype View = FolderMessages | MessagesContent | Content | Messages | MessagesAttachments

  /** The panes; the drawing code's `Messages` pane is `List`. */
  datatype ActivePane = Folders | List | Content | Attachments

  datatype PaneSwitchDirection = Left | Right

  datatype ScrollDirection = Up | Down

  /** `SelectionState` */
  datatype Selection = Selection(
    folderIndex: nat,
    emailIndex: nat,
    scrollOffset: nat,
    attachmentIndex: nat,
    rememberedEmailIndex: Option<nat>)

  /** The state of an `App`. */
  datatype AppModel = AppModel(
    state: AppState,
    activePane: ActivePane,
    currentView: View,
    contentPaneHidden: bool,
    selection: Selection,
    store: StoreModel,
    scanner: Maildir.Scanner,
    shouldQuit: bool,
    statusMessage: Option<string>,
    messagePaneVisibleRows: nat,
    initialLoadingDone: bool)

  // ----- The view tables -----

  /** `View::get_available_panes` */
  function AvailablePanes(v: View, hidden: bool): (r: seq<ActivePane>)
    ensures |r| >= 1
    ensures forall i, j :: 0 <= i < j < |r| ==> r[i] != r[j]
  {
    if hidden then
      match v
      case FolderMessages => [Folders, List]
      case Messages => [List]
      case MessagesAttachments => [List, Attachments]
      case _ => [List]
    else
      match v
      case FolderMessages => [Folders, List]
      case MessagesContent => [List, ActivePane.Content]
      case Content => [ActivePane.Content]
      case _ => [List]
  }

  /** `View::get_default_active_pane`: always one of the available panes. */
  function DefaultPane(v: View, hidden: bool): (r: ActivePane)
    ensures r in AvailablePanes(v, hidden)
  {
    if hidden then
      match v
      case FolderMessages => Folders
      case Messages => List
      case MessagesAttachments => Attachments
      case _ => List
    else
      match v
      case FolderMessages => Folders
      case MessagesContent => List
      case Content => ActivePane.Content
      case _ => List
  }

  /** `View::next_view` */
  function NextViewOf(v: View, hidden: bool): Option<View> {
    if hidden then
      match v
      case FolderMessages => Some(Messages)
      case Messages => Some(MessagesAttachments)
      case _ => None
    else
      match v
      case FolderMessages => Some(MessagesContent)
      case MessagesContent => Some(View.Content)
      case _ => None
  }

  /** `View::prev_view` */
  function PrevViewOf(v: View, hidden: bool): Option<View> {
    if hidden then
      match v
      case MessagesAttachments => Some(Messages)
      case Messages => Some(FolderMessages)
      case _ => None
    else
      match v
      case Content => Some(MessagesContent)
      case MessagesContent => Some(FolderMessages)
      case _ => None
  }

  /** The three views that `l` and `h` move between for a value of the flag. */
  function Chain(hidden: bool): seq<View> {
    if hidden then [FolderMessages, Messages, MessagesAttachments]
    else [FolderMessages, MessagesContent, View.Content]
  }

  /** The tables form a chain without wrap-around: `next` moves one step along it,
      `prev` one step back, both stop at its ends, and off the chain neither moves. */
  lemma ViewChain(hidden: bool, v: View)
    ensures var c := Chain(hidden);
            (forall i :: 0 <= i < 2 ==> NextViewOf(c[i], hidden) == Some(c[i + 1]) && PrevViewOf(c[i + 1], hidden) == Some(c[i]))
            && NextViewOf(c[2], hidden).None? && PrevViewOf(c[0], hidden).None?
            && (v !in c ==> NextViewOf(v, hidden).None? && PrevViewOf(v, hidden).None?)
  {
  }

  /** `prev` undoes `next` and `next` undoes `prev`. */
  lemma PrevUndoesNext(v: View, hidden: bool)
    ensures NextViewOf(v, hidden).Some? ==> PrevViewOf(NextViewOf(v, hidden).value, hidden) == Some(v)
    ensures PrevViewOf(v, hidden).Some? ==> NextViewOf(PrevViewOf(v, hidden).value, hidden) == Some(v)
  {
  }

  /** The invariant the pane logic keeps: the focused pane is one that the current
      view shows. */
  predicate PaneAvailable(m: AppModel) {
    m.activePane in AvailablePanes(m.currentView, m.contentPaneHidden)
  }

  // ----- State transitions -----

  /** `set_state` */
  function AfterSetState(m: AppModel, s: AppState): (r: AppModel)
    ensures r.state == s && r.currentView == m.currentView && r.contentPaneHidden == m.contentPaneHidden
    ensures r.shouldQuit == (m.shouldQuit || s == Quit)
    ensures s == EmailList && List in AvailablePanes(m.currentView, m.contentPaneHidden) ==> r.activePane == List
    ensures s == EmailContent && ActivePane.Content in AvailablePanes(m.currentView, m.contentPaneHidden) ==>
              r.activePane == ActivePane.Content
    ensures r.activePane != m.activePane ==> r.activePane in AvailablePanes(m.currentView, m.contentPaneHidden)
    ensures r.store == m.store && r.selection == m.selection
  {
    var panes := AvailablePanes(m.currentView, m.contentPaneHidden);
    var m1 :=
      match s
      case Quit => m.(shouldQuit := true)
      case EmailList => if List in panes then m.(activePane := List) else m
      case EmailContent => if ActivePane.Content in panes then m.(activePane := ActivePane.Content) else m
      case _ => m;
    m1.(state := s)
  }

  /** The position of `p` among `panes`, 0 when it is not listed. */
  function PanePosition(panes: seq<ActivePane>, p: ActivePane): (r: nat)
    ensures |panes| > 0 ==> r < |panes|
    ensures p in panes ==> panes[r] == p && forall i :: 0 <= i < r ==> panes[i] != p
    ensures p !in panes ==> r == 0
  {
    if panes == [] || panes[0] == p then 0
    else if p in panes[1..] then 1 + PanePosition(panes[1..], p)
    else 0
  }

  /** The position one step to the left or right, wrapping at both ends. */
  function StepIndex(n: nat, i: nat, d: PaneSwitchDirection): (r: nat)
    requires i < n
    ensures r < n
    ensures d == Right ==> r == (i + 1) % n
    ensures d == Left ==> (r + 1) % n == i
  {
    match d
    case Left => if i > 0 then i - 1 else n - 1
    case Right => if i < n - 1 then i + 1 else 0
  }

  /** The pane `switch_pane` moves to. */
  function SwitchedPane(v: View, hidden: bool, p: ActivePane, d: PaneSwitchDirection): (r: ActivePane)
    ensures r in AvailablePanes(v, hidden)
  {
    var panes := AvailablePanes(v, hidden);
    panes[StepIndex(|panes|, PanePosition(panes, p), d)]
  }

  /** A step right followed by a step left comes back to a listed pane. */
  lemma SwitchRightThenLeft(v: View, hidden: bool, p: ActivePane)
    requires p in AvailablePanes(v, hidden)
    ensures SwitchedPane(v, hidden, SwitchedPane(v, hidden, p, Right), Left) == p
  {
    var panes := AvailablePanes(v, hidden);
    var i := PanePosition(panes, p);
    var j := StepIndex(|panes|, i, Right);
    assert PanePosition(panes, panes[j]) == j;
  }

  /** Leaving the message list: remember the selected position, then deselect. */
  function Snapshot(m: AppModel): (r: AppModel)
    ensures r.store.selectedEmail.None? && r.store.root == m.store.root && r.store.currentFolder == m.store.currentFolder
    ensures m.store.selectedEmail.Some? ==> r.selection.rememberedEmailIndex == Some(m.selection.emailIndex)
    ensures m.store.selectedEmail.None? ==> r.selection == m.selection
  {
    var remembered := if m.store.selectedEmail.Some? then Some(m.selection.emailIndex) else m.selection.rememberedEmailIndex;
    m.(selection := m.selection.(rememberedEmailIndex := remembered), store := m.store.(selectedEmail := None))
  }

  /** Coming back to the message list: select the remembered position again, load
      that message, and show its content when it loads. Nothing happens when no
      position is remembered. */
  function Restore(m: AppModel): AppModel {
    match m.selection.rememberedEmailIndex
    case None => m
    case Some(k) =>
      var m1 := m.(selection := m.selection.(emailIndex := k), store := AfterSelectEmail(m.store, k));
      var (s2, e) := GetSelectedEmail(m1.store, m1.scanner.fs);
      var m2 := m1.(store := s2);
      if e.Some? then AfterSetState(m2, EmailContent) else m2
  }

  /** `switch_pane`; the available list is never empty, so its empty case is left out. */
  function AfterSwitchPane(m: AppModel, d: PaneSwitchDirection): AppModel {
    var newPane := SwitchedPane(m.currentView, m.contentPaneHidden, m.activePane, d);
    var m1 :=
      if m.activePane == List && newPane == Folders then Snapshot(m)
      else if m.activePane == Folders && newPane == List then Restore(m)
      else m;
    m1.(activePane := newPane)
  }

  /** `next_view` */
  function AfterNextView(m: AppModel): AppModel {
    match NextViewOf(m.currentView, m.contentPaneHidden)
    case None => m
    case Some(nv) =>
      var m1 := if m.currentView == FolderMessages && nv == MessagesContent then Restore(m) else m;
      m1.(currentView := nv, activePane := DefaultPane(nv, m1.contentPaneHidden))
  }

  /** `prev_view` */
  function AfterPrevView(m: AppModel): AppModel {
    match PrevViewOf(m.currentView, m.contentPaneHidden)
    case None => m
    case Some(pv) =>
      var m1 := if m.currentView == MessagesContent && pv == FolderMessages then Snapshot(m) else m;
      m1.(currentView := pv, activePane := DefaultPane(pv, m1.contentPaneHidden))
  }

  /** The view `toggle_content_pane` moves to once the flag is `hidden`. */
  function ToggledView(v: View, hidden: bool): (r: View)
    ensures r in Chain(hidden)
    ensures v == FolderMessages <==> r == FolderMessages
  {
    if v == FolderMessages then FolderMessages
    else if hidden then Messages
    else MessagesContent
  }

  /** `toggle_content_pane` */
  function AfterToggleContentPane(m: AppModel): AppModel {
    var hidden := !m.contentPaneHidden;
    var v := ToggledView(m.currentView, hidden);
    m.(contentPaneHidden := hidden, currentView := v, activePane := DefaultPane(v, hidden))
  }

  /** `scroll`: up saturates at 0, down is unbounded. */
  function AfterScroll(m: AppModel, d: ScrollDirection, amount: nat): (r: AppModel)
    ensures d == Up ==> r.selection.scrollOffset == if m.selection.scrollOffset >= amount then m.selection.scrollOffset - amount else 0
    ensures d == Down ==> r.selection.scrollOffset == m.selection.scrollOffset + amount
    ensures r == m.(selection := m.selection.(scrollOffset := r.selection.scrollOffset))
  {
    var o := m.selection.scrollOffset;
    var o' := match d case Up => (if o >= amount then o - amount else 0) case Down => o + amount;
    m.(selection := m.selection.(scrollOffset := o'))
  }

  /** Scrolling down and back up by the same amount returns to the same place. */
  lemma ScrollDownThenUp(m: AppModel, amount: nat)
    ensures AfterScroll(AfterScroll(m, Down, amount), Up, amount) == m
  {
  }

  /** `get_current_email_for_web`: the selected message, fully loaded, only in the
      views that show content. */
  function CurrentEmailForWeb(m: AppModel): (AppModel, Option<Email>) {
    if m.currentView == MessagesContent || m.currentView == View.Content then
      var (s, e) := GetSelectedEmail(m.store, m.scanner.fs);
      (m.(store := s), e)
    else (m, None)
  }

  lemma CurrentEmailForWebOnlyWithContent(m: AppModel)
    ensures m.currentView != MessagesContent && m.currentView != View.Content ==> CurrentEmailForWeb(m) == (m, None)
    ensures m.currentView == MessagesContent || m.currentView == View.Content ==>
              CurrentEmailForWeb(m).1 == GetSelectedEmail(m.store, m.scanner.fs).1
  {
  }

  // ----- The invariant and the selection memory -----

  /** Every transition keeps the focused pane among the view's panes. */
  lemma TransitionsKeepPaneAvailable(m: AppModel, s: AppState, d: PaneSwitchDirection, sd: ScrollDirection, amount: nat)
    requires PaneAvailable(m)
    ensures PaneAvailable(AfterSetState(m, s))
    ensures PaneAvailable(AfterSwitchPane(m, d))
    ensures PaneAvailable(AfterNextView(m))
    ensures PaneAvailable(AfterPrevView(m))
    ensures PaneAvailable(AfterToggleContentPane(m))
    ensures PaneAvailable(AfterScroll(m, sd, amount))
  {
    SetStateKeepsPaneAvailable(m, s);
    SwitchPaneKeepsPaneAvailable(m, d);
    NextViewKeepsPaneAvailable(m);
    PrevViewKeepsPaneAvailable(m);
    ToggleKeepsPaneAvailable(m);
    ScrollKeepsPaneAvailable(m, sd, amount);
  }

  lemma SetStateKeepsPaneAvailable(m: AppModel, s: AppState)
    requires PaneAvailable(m)
    ensures PaneAvailable(AfterSetState(m, s))
  {
  }

  lemma ToggleKeepsPaneAvailable(m: AppModel)
    ensures PaneAvailable(AfterToggleContentPane(m))
  {
  }

  lemma ScrollKeepsPaneAvailable(m: AppModel, sd: ScrollDirection, amount: nat)
    requires PaneAvailable(m)
    ensures PaneAvailable(AfterScroll(m, sd, amount))
  {
  }

  lemma SwitchPaneKeepsPaneAvailable(m: AppModel, d: PaneSwitchDirection)
    requires PaneAvailable(m)
    ensures PaneAvailable(AfterSwitchPane(m, d))
  {
    RestoreKeepsView(m);
  }

  lemma NextViewKeepsPaneAvailable(m: AppModel)
    requires PaneAvailable(m)
    ensures PaneAvailable(AfterNextView(m))
  {
    RestoreKeepsView(m);
  }

  lemma PrevViewKeepsPaneAvailable(m: AppModel)
    requires PaneAvailable(m)
    ensures PaneAvailable(AfterPrevView(m))
  {
    RestoreKeepsView(m);
  }

  lemma RestoreKeepsView(m: AppModel)
    ensures Restore(m).currentView == m.currentView && Restore(m).contentPaneHidden == m.contentPaneHidden
    ensures Restore(m).activePane == m.activePane || Restore(m).activePane in AvailablePanes(m.currentView, m.contentPaneHidden)
    ensures Restore(m).store.currentFolder == m.store.currentFolder
  {
    match m.selection.rememberedEmailIndex
    case None =>
    case Some(k) =>
      var m1 := m.(selection := m.selection.(emailIndex := k), store := AfterSelectEmail(m.store, k));
      GetSelectedEmailStores(m1.store, m1.scanner.fs);
  }

  /** Restoring a remembered position selects it again when it is a message of the
      current folder, and sets the list cursor to it in any case. */
  lemma {:induction false} RestoreSelects(m: AppModel, k: nat)
    requires m.selection.rememberedEmailIndex == Some(k)
    ensures Restore(m).selection.emailIndex == k
    ensures Restore(m).store.currentFolder == m.store.currentFolder
    ensures k < |CurrentFolder(m.store).emails| ==> Restore(m).store.selectedEmail == Some(k)
    ensures k >= |CurrentFolder(m.store).emails| ==> Restore(m).store.selectedEmail == m.store.selectedEmail
  {
    var m1 := m.(selection := m.selection.(emailIndex := k), store := AfterSelectEmail(m.store, k));
    GetSelectedEmailStores(m1.store, m1.scanner.fs);
  }

  /** `h` from the message view and `l` back: the view, the focus and the selected
      message come back (the `l` only restores; it selects nothing new). */
  lemma {:induction false} PrevThenNextRestoresSelection(m: AppModel)
    requires m.currentView == MessagesContent && !m.contentPaneHidden
    requires m.store.selectedEmail.Some?
    ensures var r := AfterNextView(AfterPrevView(m));
            r.currentView == MessagesContent && r.activePane == List
            && r.selection.emailIndex == m.selection.emailIndex
            && r.selection.rememberedEmailIndex == Some(m.selection.emailIndex)
            && r.store.currentFolder == m.store.currentFolder
            && (m.selection.emailIndex < |CurrentFolder(m.store).emails| ==> r.store.selectedEmail == Some(m.selection.emailIndex))
  {
    var p := AfterPrevView(m);
    assert p == Snapshot(m).(currentView := FolderMessages, activePane := Folders);
    RestoreSelects(p, m.selection.emailIndex);
    RestoreKeepsView(p);
  }

  /** Toggling twice restores the flag, and restores the view exactly when it is
      FolderMessages or the flag's own middle view; the focus becomes the default. */
  lemma ToggleTwice(m: AppModel)
    ensures var r := AfterToggleContentPane(AfterToggleContentPane(m));
            r.contentPaneHidden == m.contentPaneHidden
            && (r.currentView == m.currentView <==>
                  m.currentView == FolderMessages || m.currentView == (if m.contentPaneHidden then Messages else MessagesContent))
            && r.activePane == DefaultPane(r.currentView, r.contentPaneHidden)
  {
  }

  // ----- Folders -----

  /** The position, among the root's sorted children, of the first one whose display
      name is "inbox" ignoring ASCII case. */
  function FirstInboxFrom(sorted: seq<Folder>, i: nat): (r: Option<nat>)
    decreases |sorted| - i
    ensures r.Some? ==> i <= r.value < |sorted| && EqIgnoreAsciiCase(DisplayName(sorted[r.value]), "inbox")
    ensures r.Some? ==> forall j :: i <= j < r.value ==> !EqIgnoreAsciiCase(DisplayName(sorted[j]), "inbox")
    ensures r.None? ==> forall j :: i <= j < |sorted| ==> !EqIgnoreAsciiCase(DisplayName(sorted[j]), "inbox")
  {
    if i >= |sorted| then None
    else if EqIgnoreAsciiCase(DisplayName(sorted[i]), "inbox") then Some(i)
    else FirstInboxFrom(sorted, i + 1)
  }

  /** `find_inbox_folder` as written: the inbox's position among the root's sorted
      children, else 0 when the root has children. The caller uses it as a row of the
      flattened folder list, which counts the descendants of earlier children too. */
  function FindInboxFolderAsWritten(root: Folder): (r: Option<nat>)
    ensures r.Some? <==> |root.subfolders| > 0
    ensures r.Some? ==> r.value < |root.subfolders|
  {
    var sorted := SortedSubfolders(root);
    match FirstInboxFrom(sorted, 0)
    case Some(i) => Some(i)
    case None => if |root.subfolders| > 0 then Some(0) else None
  }

  /** The folder list row of the root's child at sorted position `k`. */
  function RowOfRootChild(root: Folder, k: nat): nat
    requires k <= |root.subfolders|
  {
    SumOver(root.subfolders, SortedOrder(root)[..k])
  }

  /** `find_inbox_folder` as evidently intended: the row of that child in the
      flattened list. */
  function FindInboxFolder(root: Folder): Option<nat> {
    match FindInboxFolderAsWritten(root)
    case Some(k) => Some(RowOfRootChild(root, k))
    case None => None
  }

  /** The row found is the root child found, at depth 1; when some child's display
      name is "inbox" ignoring case, it is such a child. */
  lemma {:induction false} FindInboxFolderIsInboxRow(root: Folder)
    ensures FindInboxFolder(root).Some? <==> |root.subfolders| > 0
    ensures FindInboxFolder(root).Some? ==>
              var row := FindInboxFolder(root).value;
              row < |FlatList(root)|
              && FlatList(root)[row].depth == 1
              && FlatList(root)[row].folder == SortedSubfolders(root)[FindInboxFolderAsWritten(root).value]
    ensures (exists j :: 0 <= j < |SortedSubfolders(root)| && EqIgnoreAsciiCase(DisplayName(SortedSubfolders(root)[j]), "inbox")) ==>
              FindInboxFolder(root).Some?
              && EqIgnoreAsciiCase(DisplayName(FlatList(root)[FindInboxFolder(root).value].folder), "inbox")
  {
    if |root.subfolders| > 0 {
      var k := FindInboxFolderAsWritten(root).value;
      var order := SortedOrder(root);
      FlatChildrenAt(root, 0, [], order, k);
      assert FlatList(root) == FlatChildren(root, 0, [], order);
    }
  }

  // A root with children "Archive" (holding "2023") and "Inbox".
  function Y2023(): Folder { NewFolder("2023", ["Archive", "2023"]) }
  function ArchiveFolder(): Folder { NewFolder("Archive", ["Archive"]).(subfolders := [Y2023()]) }
  function InboxFolder(): Folder { NewFolder("Inbox", ["Inbox"]) }
  function SampleRoot(): Folder { NewFolder("Mail", []).(subfolders := [ArchiveFolder(), InboxFolder()]) }

  lemma SampleOrder()
    ensures SortedOrder(SampleRoot()) == [0, 1]
    ensures SortedOrder(ArchiveFolder()) == [0]
    ensures SortedOrder(Y2023()) == [] && SortedOrder(InboxFolder()) == []
  {
    var subs := SampleRoot().subfolders;
    assert "Inbox" != Inbox by { assert "Inbox"[1] != Inbox[1]; }
    assert "Archive" != Inbox by { assert "Archive"[0] != Inbox[0]; }
    assert LexLe("Archive", "Inbox");
    assert NameLe(subs[0].name, subs[1].name);
    assert SortPrefix(subs, 1) == [0];
    assert Insert(subs, 1, []) == [1];
    assert [0][1..] == [] && [0] + [1] == [0, 1];
    assert Insert(subs, 1, [0]) == [0, 1];
    assert SortPrefix(subs, 2) == [0, 1];
    assert SortPrefix(ArchiveFolder().subfolders, 1) == [0];
  }

  lemma SampleFlatList()
    ensures FlatList(SampleRoot()) ==
              [FlatEntry(ArchiveFolder(), 1, [0]), FlatEntry(Y2023(), 2, [0, 0]), FlatEntry(InboxFolder(), 1, [1])]
  {
    SampleOrder();
    var root, archive, inbox, y := SampleRoot(), ArchiveFolder(), InboxFolder(), Y2023();
    assert FlatFrom(y, 2, [0, 0]) == [FlatEntry(y, 2, [0, 0])];
    assert [0] + [0] == [0, 0] && [0][1..] == [];
    assert FlatChildren(archive, 1, [0], [0]) == FlatFrom(y, 2, [0, 0]);
    assert FlatFrom(archive, 1, [0]) == [FlatEntry(archive, 1, [0]), FlatEntry(y, 2, [0, 0])];
    assert FlatFrom(inbox, 1, [1]) == [FlatEntry(inbox, 1, [1])];
    assert [] + [1] == [1] && [] + [0] == [0];
    assert [0, 1][1..] == [1] && [1][1..] == [];
    assert FlatChildren(root, 0, [], [1]) == FlatFrom(inbox, 1, [1]);
    assert FlatChildren(root, 0, [], [0, 1]) == FlatFrom(archive, 1, [0]) + FlatChildren(root, 0, [], [1]);
  }

  lemma SampleInboxPosition()
    ensures FindInboxFolderAsWritten(SampleRoot()) == Some(1)
  {
    SampleOrder();
    var sorted := SortedSubfolders(SampleRoot());
    assert sorted == [ArchiveFolder(), InboxFolder()];
    assert DisplayName(sorted[0]) == "Archive" && DisplayName(sorted[1]) == "Inbox";
    assert !EqIgnoreAsciiCase("Archive", "inbox") by {
      assert ToLowerAscii("Archive")[0] == 'a' != 'i' == ToLowerAscii("inbox")[0];
    }
    assert EqIgnoreAsciiCase("Inbox", "inbox") by {
      assert ToLowerAscii("Inbox") == "inbox";
    }
    assert FirstInboxFrom(sorted, 1) == Some(1);
    assert FirstInboxFrom(sorted, 0) == Some(1);
  }

  lemma SampleInboxRow()
    ensures RowOfRootChild(SampleRoot(), 1) == 2
  {
    SampleOrder();
    var root := SampleRoot();
    assert CountVisible(Y2023()) == 0;
    assert CountVisible(ArchiveFolder()) == 1;
    assert SortedOrder(root)[..1] == [0];
  }

  /** The as-written rule picks the wrong row: with children "Archive" (holding
      "2023") and "Inbox", it yields 1, and row 1 of the folder list is "2023";
      the intended row is 2. */
  lemma FindInboxFolderAsWrittenMisses()
    ensures FindInboxFolderAsWritten(SampleRoot()) == Some(1)
    ensures |FlatList(SampleRoot())| == 3
    ensures FlatList(SampleRoot())[1].folder.name == "2023"
    ensures FlatList(SampleRoot())[2].folder.name == "Inbox"
    ensures FindInboxFolder(SampleRoot()) == Some(2)
  {
    SampleFlatList();
    SampleInboxPosition();
    SampleInboxRow();
  }

  /** `get_selected_folder`: the folder under the folder-pane cursor. */
  function SelectedFolder(m: AppModel): Option<Folder> {
    match FolderList.GetFolderPathFromDisplayIndex(m.store.root, m.selection.folderIndex)
    case Some(p) => FolderAtPath(m.store.root, p)
    case None => None
  }

  lemma SelectedFolderIsRow(m: AppModel)
    ensures SelectedFolder(m).Some? <==> m.selection.folderIndex < CountVisible(m.store.root)
    ensures SelectedFolder(m).Some? ==> SelectedFolder(m).value == FlatList(m.store.root)[m.selection.folderIndex].folder
  {
    DisplayIndexResolves(m.store.root, m.selection.folderIndex);
  }

  /** The two states show the same view with the same focus. */
  predicate SameLayout(a: AppModel, b: AppModel) {
    a.activePane == b.activePane && a.currentView == b.currentView && a.contentPaneHidden == b.contentPaneHidden
  }

  /** `load_selected_folder_messages`: only the store, the status and the message
      cursor change. */
  function LoadSelectedFolderMessages(m: AppModel): (r: AppModel)
    ensures SameLayout(m, r) && r.state == m.state
    ensures r.selection.folderIndex == m.selection.folderIndex
    ensures r.scanner == m.scanner && r.shouldQuit == m.shouldQuit
  {
    match FolderList.GetFolderPathFromDisplayIndex(m.store.root, m.selection.folderIndex)
    case None => m
    case Some(path) =>
      var (s, err) := EnsureFolderAtPathLoaded(m.store, path, m.scanner, m.messagePaneVisibleRows);
      var status := if err.Some? then Some("Error loading folder messages: " + err.value) else m.statusMessage;
      m.(store := s, statusMessage := status,
         selection := m.selection.(emailIndex := 0, rememberedEmailIndex := None))
  }

  /** Browsing to another folder forgets the remembered selection and leaves the
      navigation state of the store alone. */
  lemma LoadSelectedFolderClearsMemory(m: AppModel)
    requires m.selection.folderIndex < CountVisible(m.store.root)
    ensures LoadSelectedFolderMessages(m).selection.emailIndex == 0
    ensures LoadSelectedFolderMessages(m).selection.rememberedEmailIndex.None?
    ensures LoadSelectedFolderMessages(m).store.currentFolder == m.store.currentFolder
    ensures LoadSelectedFolderMessages(m).store.selectedEmail == m.store.selectedEmail
  {
    DisplayIndexResolves(m.store.root, m.selection.folderIndex);
  }

  /** The folder loaded is the one on the cursor's row of the folder list, with a
      load capped at the visible rows; a failed load is reported, and a cursor past
      the end of the list changes nothing. */
  lemma LoadSelectedFolderLoadsRow(m: AppModel)
    ensures var r := LoadSelectedFolderMessages(m);
            var fi := m.selection.folderIndex;
            (fi < |FlatList(m.store.root)| ==>
               var (s, err) := LoadAt(m.store, FlatList(m.store.root)[fi].path, m.scanner, Some(m.messagePaneVisibleRows));
               r.store == s
               && r.statusMessage == (if err.Some? then Some("Error loading folder messages: " + err.value) else m.statusMessage))
            && (fi >= |FlatList(m.store.root)| ==> r == m)
  {
    FlatListLength(m.store.root);
    DisplayIndexResolves(m.store.root, m.selection.folderIndex);
  }

  lemma LoadAtKeepsCount(s: StoreModel, path: seq<nat>, sc: Maildir.Scanner, limit: Option<nat>)
    ensures CountVisible(LoadAt(s, path, sc, limit).0.root) == CountVisible(s.root)
  {
    var f := Walk(s.root, path);
    if !f.isLoaded {
      ReplaceAtKeepsCount(s.root, path, Maildir.LoadSpec(sc, f, limit).folder);
    }
  }

  lemma GetSelectedEmailKeepsCount(s: StoreModel, fs: Fs.Node)
    ensures CountVisible(GetSelectedEmail(s, fs).0.root) == CountVisible(s.root)
  {
    match SelectedEmailHeaders(s)
    case None =>
    case Some(e) =>
      match EnsureFullyLoaded(e, fs)
      case Err(_) =>
      case Ok(e1) =>
        var f := CurrentFolder(s);
        ReplaceAtKeepsCount(s.root, s.currentFolder, f.(emails := f.emails[s.selectedEmail.value := e1]));
  }

  /** Loading the folder under the cursor keeps the folder list the same length. */
  lemma LoadSelectedFolderKeepsCount(m: AppModel)
    ensures CountVisible(LoadSelectedFolderMessages(m).store.root) == CountVisible(m.store.root)
  {
    match GetFolderPathFromDisplayIndex(m.store.root, m.selection.folderIndex)
    case None =>
    case Some(path) =>
      if FolderAtPath(m.store.root, path).Some? {
        LoadAtKeepsCount(m.store, path, m.scanner, Some(m.messagePaneVisibleRows));
      }
  }

  /** `perform_initial_loading_if_needed` */
  function PerformInitialLoading(m: AppModel): (r: AppModel)
    ensures r.initialLoadingDone
    ensures m.initialLoadingDone ==> r == m
  {
    if m.initialLoadingDone then m else LoadSelectedFolderMessages(m).(initialLoadingDone := true)
  }

  /** The first call loads the folder on the folder-list cursor's row, capped at the
      visible rows, and resets the message cursor and its memory. */
  lemma InitialLoadingLoadsCursorRow(m: AppModel)
    requires !m.initialLoadingDone
    ensures var r := PerformInitialLoading(m);
            var fi := m.selection.folderIndex;
            r == LoadSelectedFolderMessages(m).(initialLoadingDone := true)
            && (fi < |FlatList(m.store.root)| ==>
                  r.store == LoadAt(m.store, FlatList(m.store.root)[fi].path, m.scanner, Some(m.messagePaneVisibleRows)).0
                  && r.selection.emailIndex == 0 && r.selection.rememberedEmailIndex.None?)
  {
    LoadSelectedFolderLoadsRow(m);
    FlatListLength(m.store.root);
    if m.selection.folderIndex < |FlatList(m.store.root)| {
      LoadSelectedFolderClearsMemory(m);
    }
  }

  /** The initial load happens once. */
  lemma InitialLoadingOnce(m: AppModel)
    ensures PerformInitialLoading(PerformInitialLoading(m)) == PerformInitialLoading(m)
  {
  }

  /** The state `App::new` starts in: the folder-and-messages view with the folder
      pane focused, nothing loaded yet, and the cursor on the folder-list row of the
      root child that `find_inbox_folder` chooses (row 0 when the root has none). */
  function InitialModel(store: StoreModel, scanner: Maildir.Scanner): (r: AppModel)
    ensures PaneAvailable(r)
    ensures r.state == FolderView && r.activePane == Folders && r.currentView == FolderMessages
    ensures !r.contentPaneHidden && !r.shouldQuit && !r.initialLoadingDone
    ensures r.store == store && r.scanner == scanner
    ensures r.selection.emailIndex == 0 && r.selection.rememberedEmailIndex.None?
    ensures |store.root.subfolders| == 0 ==> r.selection.folderIndex == 0
    ensures |store.root.subfolders| > 0 ==>
              r.selection.folderIndex < |FlatList(store.root)|
              && FlatList(store.root)[r.selection.folderIndex].depth == 1
              && FlatList(store.root)[r.selection.folderIndex].folder
                 == SortedSubfolders(store.root)[FindInboxFolderAsWritten(store.root).value]
  {
    FindInboxFolderIsInboxRow(store.root);
    var m := AppModel(FolderView, Folders, FolderMessages, false, Selection(0, 0, 0, 0, None),
                      store, scanner, false, None, 20, false);
    match FindInboxFolder(store.root)
    case Some(i) => m.(selection := m.selection.(folderIndex := i))
    case None => m
  }

  // ----- The application object -----

  class App {
    var state: AppState
    var activePane: ActivePane
    var currentView: View
    var contentPaneHidden: bool
    var selection: Selection
    const emailStore: EmailStore
    var scanner: Maildir.Scanner
    var shouldQuit: bool
    var statusMessage: Option<string>
    var messagePaneVisibleRows: nat
    var initialLoadingDone: bool

    function Model(): AppModel
      reads this, emailStore
    {
      AppModel(state, activePane, currentView, contentPaneHidden, selection, emailStore.Model(),
               scanner, shouldQuit, statusMessage, messagePaneVisibleRows, initialLoadingDone)
    }

    /** `App::new`, with the INBOX row selected. */
    constructor (store: EmailStore, sc: Maildir.Scanner)
      ensures emailStore == store
      ensures Model() == InitialModel(old(store.Model()), sc)
    {
      state := FolderView;
      activePane := Folders;
      currentView := FolderMessages;
      contentPaneHidden := false;
      selection := Selection(0, 0, 0, 0, None);
      emailStore := store;
      scanner := sc;
      shouldQuit := false;
      statusMessage := None;
      messagePaneVisibleRows := 20;
      initialLoadingDone := false;
      new;
      var inbox := FindInboxFolder(store.root);
      if inbox.Some? {
        selection := selection.(folderIndex := inbox.value);
      }
    }

    method SetState(s: AppState)
      modifies this
      ensures Model() == AfterSetState(old(Model()), s)
    {
      var panes := AvailablePanes(currentView, contentPaneHidden);
      match s {
        case Quit => shouldQuit := true;
        case EmailList =>
          if List in panes {
            activePane := List;
          }
        case EmailContent =>
          if ActivePane.Content in panes {
            activePane := ActivePane.Content;
          }
        case _ =>
      }
      state := s;
    }

    method RememberSelection()
      modifies this, emailStore
      ensures Model() == Snapshot(old(Model()))
    {
      if emailStore.selectedEmail.Some? {
        selection := selection.(rememberedEmailIndex := Some(selection.emailIndex));
      }
      emailStore.Deselect();
    }

    method RestoreSelection()
      modifies this, emailStore
      ensures Model() == Restore(old(Model()))
    {
      if selection.rememberedEmailIndex.Some? {
        var k := selection.rememberedEmailIndex.value;
        selection := selection.(emailIndex := k);
        emailStore.SelectEmail(k);
        var e := emailStore.GetSelectedEmailM(scanner.fs);
        if e.Some? {
          SetState(EmailContent);
        }
      }
    }

    method SwitchPane(d: PaneSwitchDirection)
      modifies this, emailStore
      ensures Model() == AfterSwitchPane(old(Model()), d)
    {
      var panes := AvailablePanes(currentView, contentPaneHidden);
      var currentIndex := PanePosition(panes, activePane);
      var newIndex := StepIndex(|panes|, currentIndex, d);
      var oldPane := activePane;
      var newPane := panes[newIndex];
      if oldPane == List && newPane == Folders {
        RememberSelection();
      } else if oldPane == Folders && newPane == List {
        RestoreSelection();
      }
      activePane := newPane;
    }

    method NextView()
      modifies this, emailStore
      ensures Model() == AfterNextView(old(Model()))
    {
      var next := NextViewOf(currentView, contentPaneHidden);
      if next.Some? {
        if currentView == FolderMessages && next.value == MessagesContent {
          RestoreSelection();
        }
        currentView := next.value;
        activePane := DefaultPane(currentView, contentPaneHidden);
      }
    }

    method PrevView()
      modifies this, emailStore
      ensures Model() == AfterPrevView(old(Model()))
    {
      var prev := PrevViewOf(currentView, contentPaneHidden);
      if prev.Some? {
        if currentView == MessagesContent && prev.value == FolderMessages {
          RememberSelection();
        }
        currentView := prev.value;
        activePane := DefaultPane(currentView, contentPaneHidden);
      }
    }

    method ToggleContentPane()
      modifies this
      ensures Model() == AfterToggleContentPane(old(Model()))
    {
      contentPaneHidden := !contentPaneHidden;
      currentView := ToggledView(currentView, contentPaneHidden);
      activePane := DefaultPane(currentView, contentPaneHidden);
    }

    method SetStatus(message: string)
      modifies this
      ensures Model() == old(Model()).(statusMessage := Some(message))
    {
      statusMessage := Some(message);
    }

    method ClearStatus()
      modifies this
      ensures Model() == old(Model()).(statusMessage := None)
    {
      statusMessage := None;
    }

    method Scroll(d: ScrollDirection, amount: nat)
      modifies this
      ensures Model() == AfterScroll(old(Model()), d, amount)
    {
      match d {
        case Up =>
          if selection.scrollOffset >= amount {
            selection := selection.(scrollOffset := selection.scrollOffset - amount);
          } else {
            selection := selection.(scrollOffset := 0);
          }
        case Down =>
          selection := selection.(scrollOffset := selection.scrollOffset + amount);
      }
    }

    method GetCurrentEmailForWeb() returns (e: Option<Email>)
      modifies emailStore
      ensures (Model(), e) == CurrentEmailForWeb(old(Model()))
    {
      if currentView == MessagesContent || currentView == View.Content {
        e := emailStore.GetSelectedEmailM(scanner.fs);
      } else {
        e := None;
      }
    }

    method LoadSelectedFolderMessagesM()
      modifies this, emailStore
      ensures Model() == LoadSelectedFolderMessages(old(Model()))
    {
      var folderPath := FolderList.GetFolderPathFromDisplayIndex(emailStore.root, selection.folderIndex);
      if folderPath.Some? {
        var err := emailStore.EnsureFolderAtPathLoadedM(folderPath.value, scanner, messagePaneVisibleRows);
        if err.Some? {
          SetStatus("Error loading folder messages: " + err.value);
        }
        selection := selection.(emailIndex := 0, rememberedEmailIndex := None);
      }
    }

    method PerformInitialLoadingIfNeeded()
      modifies this, emailStore
      ensures Model() == PerformInitialLoading(old(Model()))
    {
      if !initialLoadingDone {
        LoadSelectedFolderMessagesM();
        initialLoadingDone := true;
      }
    }
  }
}
