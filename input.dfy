/** Keyboard handling (`src/input.rs`): the global keys, the main-view and
    attachment-view key maps, and the navigation, selection and back actions they
    trigger. Each handler is a function from the application state to the state
    after the key, and a method on an `App` proved to perform it. */
module Input {
  import opened Wrappers
  import opened Text
  import Fs
  import Maildir
  import opened Mail
  import opened Store
  import opened FolderList
  import opened App

  datatype KeyCode = Char(c: char) | Up | Down | Tab | BackTab | Enter | Backspace | Esc
                   | PageUp | PageDown | OtherKey

  /** The modifier keys held; `other` stands for every modifier beyond these three. */
  datatype Modifiers = Modifiers(shift: bool, control: bool, alt: bool, other: bool)

  datatype KeyEvent = KeyEvent(code: KeyCode, modifiers: Modifiers)

  datatype Event = Key(key: KeyEvent) | Resize(columns: nat, rows: nat) | OtherEvent

  datatype NavigationDirection = Up | Down

  const NoModifiers := Modifiers(false, false, false, false)
  const AltOnly := Modifiers(false, false, true, false)
  const ShiftOnly := Modifiers(true, false, false, false)

  /** The rows the folder entry keys assume the message pane shows. */
  const EstimatedVisibleRows: nat := 20

  /** How many messages entering a folder loads: the estimate plus five, at least ten. */
  const LoadCount: nat := Max(EstimatedVisibleRows + 5, 10)

  // ----- The actions -----

  /** The attachment cursor one down, within the selected message's attachments
      (reading the message loads it). */
  function AttachmentDown(m: AppModel): (r: AppModel)
    ensures SameLayout(m, r) && r.state == m.state
  {
    var (s, e) := GetSelectedEmail(m.store, m.scanner.fs);
    var m1 := m.(store := s);
    if e.Some? && m.selection.attachmentIndex + 1 < |e.value.attachments| then
      m1.(selection := m1.selection.(attachmentIndex := m.selection.attachmentIndex + 1))
    else m1
  }

  /** The attachment cursor one up, stopping at the first. */
  function AttachmentUp(m: AppModel): (r: AppModel)
    ensures SameLayout(m, r) && r.state == m.state
  {
    if m.selection.attachmentIndex > 0 then
      m.(selection := m.selection.(attachmentIndex := m.selection.attachmentIndex - 1))
    else m
  }

  /** `handle_navigation` */
  function AfterNavigation(m: AppModel, d: NavigationDirection): AppModel {
    match m.activePane
    case Folders => FolderNavigation(m, d)
    case List => ListNavigation(m, d)
    case Content =>
      (match d
       case Down => AfterScroll(m, ScrollDirection.Down, 1)
       case Up => AfterScroll(m, ScrollDirection.Up, 1))
    case Attachments =>
      (match d
       case Down => AttachmentDown(m)
       case Up => AttachmentUp(m))
  }

  /** The folder-pane case: the cursor moves within the list, and a move loads the
      folder under it. */
  function FolderNavigation(m: AppModel, d: NavigationDirection): AppModel {
    var total := CountVisible(m.store.root);
    var fi := m.selection.folderIndex;
    var fi' := FolderStep(fi, total, d);
    var m1 := m.(selection := m.selection.(folderIndex := fi'));
    if fi' != fi then LoadSelectedFolderMessages(m1) else m1
  }

  /** The message-list case: the next or previous message selected, more loaded
      when the cursor nears the end of what is loaded. */
  function ListNavigation(m: AppModel, d: NavigationDirection): AppModel {
    var total := |CurrentFolder(m.store).emails|;
    var ei := m.selection.emailIndex;
    match d
    case Down =>
      if ei + 1 < total then LoadAround(SelectRow(m, ei + 1), ei + 1) else m
    case Up =>
      if ei > 0 then AfterSetState(SelectRow(m, ei - 1), EmailList) else m
  }

  /** The message at row `k` of the current folder selected, in the selection and in the store. */
  function SelectRow(m: AppModel, k: nat): AppModel {
    m.(selection := m.selection.(emailIndex := k), store := AfterSelectEmail(m.store, k))
  }

  /** After moving down to row `k`: more messages loaded when `k` is near the end of
      what is loaded, a failed load reported, and the list state set. */
  function LoadAround(m: AppModel, k: nat): AppModel {
    var (s2, err) := LoadMoreMessagesIfNeeded(m.store, m.scanner, k);
    var m2 := m.(store := s2, statusMessage := if err.Some? then Some("Error loading more messages: " + err.value) else m.statusMessage);
    AfterSetState(m2, EmailList)
  }

  /** Entering the folder under the folder-pane cursor: `handle_folder_selection_and_switch_view`
      when `switchView`, else the folder case of `handle_selection`, which is the same
      without the change of view and pane. The path is reset and the folder loaded
      with `LoadCount` messages at most; a failed load keeps the new path and only
      reports. */
  function EnterSelectedFolder(m: AppModel, switchView: bool): AppModel {
    match GetFolderPathFromDisplayIndex(m.store.root, m.selection.folderIndex)
    case None => m
    case Some(path) =>
      var s1 := AfterEnterFolderByPath(m.store.(currentFolder := []), path);
      var (s2, err) := EnsureCurrentFolderLoadedWithLimit(s1, m.scanner, LoadCount);
      if err.Some? then
        m.(store := s2, statusMessage := Some("Error loading folder: " + err.value))
      else
        FolderEntered(m.(store := s2), switchView)
  }

  /** After the folder loaded: the first message selected, the cursors reset, the
      memory cleared, the list shown. */
  function FolderEntered(m: AppModel, switchView: bool): AppModel {
    var s := if |CurrentFolder(m.store).emails| > 0 then AfterSelectEmail(m.store, 0) else m.store;
    var m1 := m.(store := s, selection := m.selection.(emailIndex := 0, scrollOffset := 0, rememberedEmailIndex := None));
    var m2 := if switchView then
                m1.(currentView := if m1.contentPaneHidden then Messages else MessagesContent, activePane := List)
              else m1;
    AfterSetState(m2, EmailList)
  }

  /** `handle_attachment_open`: only a status message; nothing is opened. */
  function AfterAttachmentOpen(m: AppModel, customCommand: bool): (r: AppModel)
    ensures SameLayout(m, r) && r.state == m.state
  {
    var (s, e) := GetSelectedEmail(m.store, m.scanner.fs);
    var m1 := m.(store := s);
    if e.Some? && m.selection.attachmentIndex < |e.value.attachments| then
      var filename := e.value.attachments[m.selection.attachmentIndex].filename;
      m1.(statusMessage := Some(if customCommand then "Custom command for " + filename + ": Not implemented yet"
                                else "Opening " + filename + ": Not implemented yet"))
    else m1
  }

  /** `handle_selection` */
  function AfterSelection(m: AppModel): AppModel {
    match m.activePane
    case Folders => EnterSelectedFolder(m, false)
    case List =>
      if m.selection.emailIndex < |CurrentFolder(m.store).emails| then
        var m1 := m.(store := AfterSelectEmail(m.store, m.selection.emailIndex),
                     currentView := if m.contentPaneHidden then Messages else MessagesContent,
                     activePane := List);
        AfterSetState(m1, EmailContent)
      else m
    case Content => m
    case Attachments => AfterAttachmentOpen(m, false)
  }

  /** `handle_back_navigation` */
  function AfterBackNavigation(m: AppModel): AppModel {
    match m.activePane
    case Folders => ExitToFolderView(m)
    case List => ExitToFolderView(m)
    case Content => AfterSetState(m, EmailList)
    case Attachments => AfterSetState(m.(currentView := MessagesContent, activePane := List), EmailList)
  }

  /** Up one folder, cursors back to the top, and the folder view shown. */
  function ExitToFolderView(m: AppModel): AppModel {
    AfterSetState(m.(store := AfterExitFolder(m.store),
                     selection := m.selection.(folderIndex := 0, emailIndex := 0, scrollOffset := 0)), FolderView)
  }

  /** Alt+a: the attachment view for a selected message that has attachments,
      otherwise a status message saying why not. */
  function AfterShowAttachments(m: AppModel): (r: AppModel)
    ensures SameLayout(m, r)
  {
    var (s, e) := GetSelectedEmail(m.store, m.scanner.fs);
    var m1 := m.(store := s);
    if e.None? then m1.(statusMessage := Some("No email selected"))
    else if HasAttachments(e.value) then AfterSetState(m1, AttachmentView)
    else m1.(statusMessage := Some("No attachments in this email"))
  }

  // ----- The key maps -----

  /** `handle_main_view_input` */
  function AfterMainViewKey(m: AppModel, key: KeyEvent): AppModel {
    var plain := key.modifiers == NoModifiers;
    var alt := key.modifiers == AltOnly;
    match key.code
    case Char(c) =>
      if c == 'j' && plain then AfterNavigation(m, NavigationDirection.Down)
      else if c == 'k' && plain then AfterNavigation(m, NavigationDirection.Up)
      else if c == 'h' && plain then AfterPrevView(m)
      else if c == 'l' && plain then
        if m.activePane == Folders && m.store.currentFolder == [] then EnterSelectedFolder(m, true)
        else AfterNextView(m)
      else if c == 'c' && alt then AfterToggleContentPane(m)
      else if c == 'a' && alt then AfterShowAttachments(m)
      else m
    case Down => AfterNavigation(m, NavigationDirection.Down)
    case Up => AfterNavigation(m, NavigationDirection.Up)
    case Tab => AfterSwitchPane(m, Right)
    case BackTab => AfterSwitchPane(m, Left)
    case Enter => if m.activePane == Folders then EnterSelectedFolder(m, true) else AfterSelection(m)
    case Backspace => AfterBackNavigation(m)
    case PageDown => if m.activePane == ActivePane.Content then AfterScroll(m, ScrollDirection.Down, 10) else m
    case PageUp => if m.activePane == ActivePane.Content then AfterScroll(m, ScrollDirection.Up, 10) else m
    case _ => m
  }

  /** `handle_attachment_view_input`: here `j`, `k` and Enter work with any modifiers. */
  function AfterAttachmentViewKey(m: AppModel, key: KeyEvent): AppModel {
    match key.code
    case Esc => AfterSetState(m, EmailContent)
    case Char(c) => if c == 'j' then AttachmentDown(m) else if c == 'k' then AttachmentUp(m) else m
    case Down => AttachmentDown(m)
    case Up => AttachmentUp(m)
    case Enter => AfterAttachmentOpen(m, key.modifiers == ShiftOnly)
    case _ => m
  }

  /** `handle_key_event`: the new state, and whether the application should quit. */
  function AfterKeyEvent(m: AppModel, key: KeyEvent): (AppModel, bool) {
    if key.code == Char('q') && key.modifiers == NoModifiers then (AfterSetState(m, Quit), true)
    else if key.code == Char('?') && key.modifiers == NoModifiers then
      (AfterSetState(m, if m.state == Help then FolderView else Help), false)
    else
      match m.state
      case Help => (AfterSetState(m, FolderView), false)
      case AttachmentView => (AfterAttachmentViewKey(m, key), false)
      case _ => (AfterMainViewKey(m, key), false)
  }

  /** `handle_input`: only key events do anything. */
  function AfterInput(m: AppModel, ev: Event): (AppModel, bool) {
    match ev
    case Key(k) => AfterKeyEvent(m, k)
    case _ => (m, false)
  }

  // ----- What the key handling promises -----

  /** Exactly the unmodified `q` asks to quit, and then the state is Quit. */
  lemma QuitOnlyOnQ(m: AppModel, key: KeyEvent)
    ensures AfterKeyEvent(m, key).1 <==> key.code == Char('q') && key.modifiers == NoModifiers
    ensures AfterKeyEvent(m, key).1 ==> AfterKeyEvent(m, key).0.state == Quit && AfterKeyEvent(m, key).0.shouldQuit
  {
  }

  /** `?` opens help from anywhere and closes it again; while help is shown any
      other key but `q` closes it and does nothing else. */
  lemma HelpKeys(m: AppModel, key: KeyEvent)
    requires !(key.code == Char('q') && key.modifiers == NoModifiers)
    ensures var r := AfterKeyEvent(m, key).0;
            (key.code == Char('?') && key.modifiers == NoModifiers ==>
               (m.state == Help <==> r.state == FolderView) && (m.state != Help <==> r.state == Help))
            && (m.state == Help ==> r == AfterSetState(m, FolderView))
  {
  }

  /** Resizes and other events change nothing. */
  lemma OnlyKeysAct(m: AppModel, ev: Event)
    requires !ev.Key?
    ensures AfterInput(m, ev) == (m, false)
  {
  }

  /** The folder-pane cursor after a step: one row down or up within the list. */
  function FolderStep(fi: nat, total: nat, d: NavigationDirection): (r: nat)
    ensures fi < total ==> r < total
  {
    match d
    case Down => if fi + 1 < total then fi + 1 else fi
    case Up => if fi > 0 then fi - 1 else fi
  }

  /** In the folder pane the cursor moves one row within the list, and the list
      keeps its length. */
  lemma {:induction false} FolderCursorStep(m: AppModel, d: NavigationDirection)
    requires m.activePane == Folders
    ensures var r := AfterNavigation(m, d);
            r.activePane == Folders
            && r.selection.folderIndex == FolderStep(m.selection.folderIndex, CountVisible(m.store.root), d)
            && CountVisible(r.store.root) == CountVisible(m.store.root)
  {
    var fi' := FolderStep(m.selection.folderIndex, CountVisible(m.store.root), d);
    LoadSelectedFolderKeepsCount(m.(selection := m.selection.(folderIndex := fi')));
  }

  /** The cursor stays on a row of the list, and a step down followed by a step up
      comes back to the same row. */
  lemma {:induction false} FolderCursor(m: AppModel, d: NavigationDirection)
    requires m.activePane == Folders && m.selection.folderIndex < CountVisible(m.store.root)
    ensures AfterNavigation(m, d).selection.folderIndex < CountVisible(AfterNavigation(m, d).store.root)
    ensures m.selection.folderIndex + 1 < CountVisible(m.store.root) ==>
              AfterNavigation(AfterNavigation(m, NavigationDirection.Down), NavigationDirection.Up).selection.folderIndex
              == m.selection.folderIndex
  {
    FolderCursorStep(m, d);
    var r := AfterNavigation(m, NavigationDirection.Down);
    FolderCursorStep(m, NavigationDirection.Down);
    FolderCursorStep(r, NavigationDirection.Up);
  }

  /** In the message list a step down selects the next message and shows the list. */
  lemma {:induction false} ListDownSelectsNext(m: AppModel)
    requires m.activePane == List
    requires m.selection.emailIndex + 1 < |CurrentFolder(m.store).emails|
    ensures var r := AfterNavigation(m, NavigationDirection.Down);
            r.selection.emailIndex == m.selection.emailIndex + 1
            && r.store.selectedEmail == Some(m.selection.emailIndex + 1)
            && r.store.currentFolder == m.store.currentFolder
            && r.state == EmailList
  {
    var s1 := AfterSelectEmail(m.store, m.selection.emailIndex + 1);
    LoadCurrentFolder(s1, m.scanner, None);
  }

  /** In the message list a step up selects the previous message and shows the
      list; at the top it changes nothing. */
  lemma ListUpSelectsPrevious(m: AppModel)
    requires m.activePane == List
    ensures var r := AfterNavigation(m, NavigationDirection.Up);
            var ei := m.selection.emailIndex;
            (ei > 0 ==> r.selection.emailIndex == ei - 1 && r.store == AfterSelectEmail(m.store, ei - 1)
                        && r.state == EmailList)
            && (ei == 0 ==> r == m)
  {
  }

  /** In both directions the list cursor moves by one row at most and, once it is
      on a loaded message, stays on one. */
  lemma ListCursorBounded(m: AppModel, d: NavigationDirection)
    requires m.activePane == List
    ensures var r := AfterNavigation(m, d);
            var ei := m.selection.emailIndex;
            (ei < |CurrentFolder(m.store).emails| ==> r.selection.emailIndex < |CurrentFolder(m.store).emails|)
            && ei - 1 <= r.selection.emailIndex <= ei + 1
  {
  }

  /** A folder-pane step that leaves the cursor where it is (at either end of the
      list) changes nothing at all. */
  lemma FolderStepInPlace(m: AppModel, d: NavigationDirection)
    requires m.activePane == Folders
    requires FolderStep(m.selection.folderIndex, CountVisible(m.store.root), d) == m.selection.folderIndex
    ensures AfterNavigation(m, d) == m
  {
  }

  /** Backspace: from the folder pane or the list it goes up one folder, resets the
      cursors and shows the folder view; from the content pane it shows the list;
      from the attachments it returns to the messages-and-content view with the list
      focused. The last two keep the store and the selection. */
  lemma BackNavigationEffects(m: AppModel)
    ensures var r := AfterBackNavigation(m);
            (m.activePane in {Folders, List} ==>
               r.store == AfterExitFolder(m.store) && r.state == FolderView
               && r.selection.folderIndex == 0 && r.selection.emailIndex == 0 && r.selection.scrollOffset == 0)
            && (m.activePane == ActivePane.Content ==>
                  r.state == EmailList && r.store == m.store && r.selection == m.selection)
            && (m.activePane == Attachments ==>
                  r.currentView == MessagesContent && r.activePane == List && r.state == EmailList
                  && r.store == m.store && r.selection == m.selection)
  {
  }

  /** Alt+a opens the attachment view exactly when a message is selected and has
      attachments; then only the store (with the message fully loaded) and the state
      change, otherwise only the store and the status message, which names the
      reason. */
  lemma ShowAttachmentsOutcome(m: AppModel)
    ensures var r := AfterShowAttachments(m);
            var (s, e) := GetSelectedEmail(m.store, m.scanner.fs);
            (m.state != AttachmentView ==> (r.state == AttachmentView <==> e.Some? && HasAttachments(e.value)))
            && (e.Some? && HasAttachments(e.value) ==> r == m.(store := s, state := AttachmentView))
            && (!(e.Some? && HasAttachments(e.value)) ==>
                  r == m.(store := s, statusMessage := Some(if e.None? then "No email selected" else "No attachments in this email")))
  {
  }

  /** In the attachment view the cursor stays on an attachment of the selected
      message once it is on one. */
  lemma AttachmentCursor(m: AppModel)
    ensures AttachmentUp(m).selection.attachmentIndex <= m.selection.attachmentIndex
    ensures var r := AttachmentDown(m);
            var e := GetSelectedEmail(m.store, m.scanner.fs).1;
            r.selection.attachmentIndex == m.selection.attachmentIndex
            || (e.Some? && r.selection.attachmentIndex == m.selection.attachmentIndex + 1 < |e.value.attachments|)
  {
  }

  /** `l` (or Enter) in the folder pane at the top level enters the folder under the
      cursor, not some other one; a successful load shows its messages with the
      list focused, a failed one only reports. */
  lemma {:induction false} EnterEntersRowUnderCursor(m: AppModel)
    requires m.selection.folderIndex < |FlatList(m.store.root)|
    ensures var r := EnterSelectedFolder(m, true);
            var row := FlatList(m.store.root)[m.selection.folderIndex];
            var err := EnsureCurrentFolderLoadedWithLimit(AfterEnterFolderByPath(m.store.(currentFolder := []), row.path),
                                                         m.scanner, LoadCount).1;
            r.store.currentFolder == row.path
            && FolderAtPath(m.store.root, row.path) == Some(row.folder)
            && (err.None? ==>
                  r.currentView == (if m.contentPaneHidden then Messages else MessagesContent)
                  && r.activePane == List && r.state == EmailList
                  && r.selection.emailIndex == 0 && r.selection.rememberedEmailIndex.None?
                  && (r.store.selectedEmail.Some? <==> |CurrentFolder(r.store).emails| > 0))
            && (err.Some? ==>
                  r.statusMessage == Some("Error loading folder: " + err.value)
                  && r.currentView == m.currentView && r.activePane == m.activePane)
  {
    FlatListLength(m.store.root);
    DisplayIndexResolves(m.store.root, m.selection.folderIndex);
    var path := FlatList(m.store.root)[m.selection.folderIndex].path;
    var s1 := AfterEnterFolderByPath(m.store.(currentFolder := []), path);
    assert s1.currentFolder == path;
    LoadCurrentFolder(s1, m.scanner, Some(LoadCount));
  }

  /** `h` from the message view and `l` back: the first leaves the selected message
      remembered and deselected, the second comes back to the list with that message
      selected again. */
  lemma {:induction false} HThenLRestoresSelection(m: AppModel)
    requires m.state != Help && m.state != AttachmentView
    requires m.currentView == MessagesContent && !m.contentPaneHidden
    requires m.store.currentFolder != [] && m.store.selectedEmail.Some?
    ensures var h := AfterKeyEvent(m, KeyEvent(Char('h'), NoModifiers)).0;
            h.currentView == FolderMessages && h.activePane == Folders
            && h.selection.rememberedEmailIndex == Some(m.selection.emailIndex) && h.store.selectedEmail.None?
    ensures var h := AfterKeyEvent(m, KeyEvent(Char('h'), NoModifiers)).0;
            var l := AfterKeyEvent(h, KeyEvent(Char('l'), NoModifiers)).0;
            l.currentView == MessagesContent && l.activePane == List
            && l.selection.emailIndex == m.selection.emailIndex
            && (m.selection.emailIndex < |CurrentFolder(m.store).emails| ==> l.store.selectedEmail == Some(m.selection.emailIndex))
  {
    var h := AfterPrevView(m);
    assert AfterKeyEvent(m, KeyEvent(Char('h'), NoModifiers)).0 == h;
    assert h == Snapshot(m).(currentView := FolderMessages, activePane := Folders);
    assert AfterKeyEvent(h, KeyEvent(Char('l'), NoModifiers)).0 == AfterNextView(h);
    PrevThenNextRestoresSelection(m);
  }

  /** Alt+c twice: the content pane is hidden and shown again. */
  lemma AltCTwice(m: AppModel)
    requires m.state != Help && m.state != AttachmentView
    ensures var k := KeyEvent(Char('c'), AltOnly);
            var r1 := AfterKeyEvent(m, k).0;
            var r2 := AfterKeyEvent(r1, k).0;
            r1.contentPaneHidden == !m.contentPaneHidden && r2.contentPaneHidden == m.contentPaneHidden
            && r2.state == m.state
  {
    ToggleTwice(m);
  }

  /** `j` in the folder pane at the top level, then `l`: the cursor moves to the next
      row without entering anything, and `l` enters the folder of that row. */
  lemma JThenLEntersNextFolder(m: AppModel)
    requires m.state != Help && m.state != AttachmentView
    requires m.activePane == Folders && m.store.currentFolder == []
    requires m.selection.folderIndex + 1 < CountVisible(m.store.root)
    ensures var r1 := AfterKeyEvent(m, KeyEvent(Char('j'), NoModifiers)).0;
            var r2 := AfterKeyEvent(r1, KeyEvent(Char('l'), NoModifiers)).0;
            r1.selection.folderIndex == m.selection.folderIndex + 1
            && r1.store.currentFolder == [] && r1.activePane == Folders
            && r1.selection.folderIndex < |FlatList(r1.store.root)|
            && r2.store.currentFolder == FlatList(r1.store.root)[r1.selection.folderIndex].path
  {
    JMovesFolderCursor(m);
    LEntersRowUnderCursor(AfterKeyEvent(m, KeyEvent(Char('j'), NoModifiers)).0);
  }

  lemma {:induction false} JMovesFolderCursor(m: AppModel)
    requires m.state != Help && m.state != AttachmentView
    requires m.activePane == Folders && m.store.currentFolder == []
    requires m.selection.folderIndex + 1 < CountVisible(m.store.root)
    ensures var r1 := AfterKeyEvent(m, KeyEvent(Char('j'), NoModifiers)).0;
            r1.selection.folderIndex == m.selection.folderIndex + 1 && r1.state == m.state
            && r1.store.currentFolder == [] && r1.activePane == Folders
            && r1.selection.folderIndex < |FlatList(r1.store.root)|
  {
    var m1 := m.(selection := m.selection.(folderIndex := m.selection.folderIndex + 1));
    FolderCursorStep(m, NavigationDirection.Down);
    LoadSelectedFolderClearsMemory(m1);
    var r1 := AfterNavigation(m, NavigationDirection.Down);
    assert AfterKeyEvent(m, KeyEvent(Char('j'), NoModifiers)).0 == r1;
    assert r1 == LoadSelectedFolderMessages(m1);
    FlatListLength(r1.store.root);
  }

  lemma {:induction false} LEntersRowUnderCursor(m: AppModel)
    requires m.state != Help && m.state != AttachmentView
    requires m.activePane == Folders && m.store.currentFolder == []
    requires m.selection.folderIndex < |FlatList(m.store.root)|
    ensures AfterKeyEvent(m, KeyEvent(Char('l'), NoModifiers)).0.store.currentFolder
         == FlatList(m.store.root)[m.selection.folderIndex].path
  {
    assert AfterKeyEvent(m, KeyEvent(Char('l'), NoModifiers)).0 == EnterSelectedFolder(m, true);
    EnterEntersRowUnderCursor(m);
  }

  // The pane invariant, handler by handler.

  lemma NavigationKeepsPane(m: AppModel, d: NavigationDirection)
    requires PaneAvailable(m)
    ensures PaneAvailable(AfterNavigation(m, d))
  {
    if m.activePane == List {
      ListNavigationKeepsPane(m, d);
    }
  }

  lemma ListNavigationKeepsPane(m: AppModel, d: NavigationDirection)
    requires PaneAvailable(m) && m.activePane == List
    ensures PaneAvailable(ListNavigation(m, d))
  {
    var ei := m.selection.emailIndex;
    if d == NavigationDirection.Down && ei + 1 < |CurrentFolder(m.store).emails| {
      var m1 := SelectRow(m, ei + 1);
      var (s2, err) := LoadMoreMessagesIfNeeded(m1.store, m1.scanner, ei + 1);
      var m2 := m1.(store := s2, statusMessage := if err.Some? then Some("Error loading more messages: " + err.value) else m1.statusMessage);
      assert PaneAvailable(m2);
      SetStateKeepsPaneAvailable(m2, EmailList);
    } else if d == NavigationDirection.Up && ei > 0 {
      SetStateKeepsPaneAvailable(SelectRow(m, ei - 1), EmailList);
    }
  }

  lemma EnterSelectedFolderKeepsPane(m: AppModel, switchView: bool)
    requires PaneAvailable(m)
    ensures PaneAvailable(EnterSelectedFolder(m, switchView))
  {
    match GetFolderPathFromDisplayIndex(m.store.root, m.selection.folderIndex)
    case None =>
    case Some(path) =>
      var s1 := AfterEnterFolderByPath(m.store.(currentFolder := []), path);
      var (s2, err) := EnsureCurrentFolderLoadedWithLimit(s1, m.scanner, LoadCount);
      if err.None? {
        var m0 := m.(store := s2);
        var s3 := if |CurrentFolder(s2).emails| > 0 then AfterSelectEmail(s2, 0) else s2;
        var m1 := m0.(store := s3, selection := m.selection.(emailIndex := 0, scrollOffset := 0, rememberedEmailIndex := None));
        var m2 := if switchView then
                    m1.(currentView := if m1.contentPaneHidden then Messages else MessagesContent, activePane := List)
                  else m1;
        assert PaneAvailable(m2);
        SetStateKeepsPaneAvailable(m2, EmailList);
      }
  }

  lemma SelectionKeepsPane(m: AppModel)
    requires PaneAvailable(m)
    ensures PaneAvailable(AfterSelection(m))
  {
    if m.activePane == Folders {
      EnterSelectedFolderKeepsPane(m, false);
    } else if m.activePane == List && m.selection.emailIndex < |CurrentFolder(m.store).emails| {
      var m1 := m.(store := AfterSelectEmail(m.store, m.selection.emailIndex),
                   currentView := if m.contentPaneHidden then Messages else MessagesContent,
                   activePane := List);
      SetStateKeepsPaneAvailable(m1, EmailContent);
    }
  }

  lemma BackKeepsPane(m: AppModel)
    requires PaneAvailable(m)
    ensures PaneAvailable(AfterBackNavigation(m))
  {
    match m.activePane
    case Folders =>
      SetStateKeepsPaneAvailable(m.(store := AfterExitFolder(m.store),
        selection := m.selection.(folderIndex := 0, emailIndex := 0, scrollOffset := 0)), FolderView);
    case List =>
      SetStateKeepsPaneAvailable(m.(store := AfterExitFolder(m.store),
        selection := m.selection.(folderIndex := 0, emailIndex := 0, scrollOffset := 0)), FolderView);
    case Content =>
      SetStateKeepsPaneAvailable(m, EmailList);
    case Attachments =>
      SetStateKeepsPaneAvailable(m.(currentView := MessagesContent, activePane := List), EmailList);
  }

  lemma CharKeyKeepsPane(m: AppModel, key: KeyEvent)
    requires PaneAvailable(m) && key.code.Char?
    ensures PaneAvailable(AfterMainViewKey(m, key))
  {
    var c := key.code.c;
    var plain := key.modifiers == NoModifiers;
    if c == 'j' && plain {
      NavigationKeepsPane(m, NavigationDirection.Down);
    } else if c == 'k' && plain {
      NavigationKeepsPane(m, NavigationDirection.Up);
    } else if c == 'h' && plain {
      PrevViewKeepsPaneAvailable(m);
    } else if c == 'l' && plain {
      if m.activePane == Folders && m.store.currentFolder == [] {
        EnterSelectedFolderKeepsPane(m, true);
      } else {
        NextViewKeepsPaneAvailable(m);
      }
    } else if c == 'c' && key.modifiers == AltOnly {
      ToggleKeepsPaneAvailable(m);
    } else if c == 'a' && key.modifiers == AltOnly {
      var (s, e) := GetSelectedEmail(m.store, m.scanner.fs);
      SetStateKeepsPaneAvailable(m.(store := s), AttachmentView);
    }
  }

  lemma MainViewKeepsPane(m: AppModel, key: KeyEvent)
    requires PaneAvailable(m)
    ensures PaneAvailable(AfterMainViewKey(m, key))
  {
    match key.code
    case Char(c) => CharKeyKeepsPane(m, key);
    case Down => NavigationKeepsPane(m, NavigationDirection.Down);
    case Up => NavigationKeepsPane(m, NavigationDirection.Up);
    case Tab => SwitchPaneKeepsPaneAvailable(m, Right);
    case BackTab => SwitchPaneKeepsPaneAvailable(m, Left);
    case Enter =>
      EnterSelectedFolderKeepsPane(m, true);
      SelectionKeepsPane(m);
    case Backspace => BackKeepsPane(m);
    case PageDown => ScrollKeepsPaneAvailable(m, ScrollDirection.Down, 10);
    case PageUp => ScrollKeepsPaneAvailable(m, ScrollDirection.Up, 10);
    case _ =>
  }

  lemma AttachmentViewKeepsPane(m: AppModel, key: KeyEvent)
    requires PaneAvailable(m)
    ensures PaneAvailable(AfterAttachmentViewKey(m, key))
  {
    if key.code == Esc {
      SetStateKeepsPaneAvailable(m, EmailContent);
    }
  }

  /** Every key keeps the focused pane among those the view shows. */
  lemma {:induction false} KeyEventKeepsPaneAvailable(m: AppModel, key: KeyEvent)
    requires PaneAvailable(m)
    ensures PaneAvailable(AfterKeyEvent(m, key).0)
  {
    if key.code == Char('q') && key.modifiers == NoModifiers {
      SetStateKeepsPaneAvailable(m, Quit);
    } else if key.code == Char('?') && key.modifiers == NoModifiers {
      SetStateKeepsPaneAvailable(m, if m.state == Help then FolderView else Help);
    } else if m.state == Help {
      SetStateKeepsPaneAvailable(m, FolderView);
    } else if m.state == AttachmentView {
      AttachmentViewKeepsPane(m, key);
    } else {
      MainViewKeepsPane(m, key);
    }
  }

  // ----- The handlers on an `App` -----

  method AttachmentDownM(app: App)
    modifies app, app.emailStore
    ensures app.Model() == AttachmentDown(old(app.Model()))
  {
    var email := app.emailStore.GetSelectedEmailM(app.scanner.fs);
    if email.Some? && app.selection.attachmentIndex + 1 < |email.value.attachments| {
      app.selection := app.selection.(attachmentIndex := app.selection.attachmentIndex + 1);
    }
  }

  method AttachmentUpM(app: App)
    modifies app
    ensures app.Model() == AttachmentUp(old(app.Model()))
  {
    if app.selection.attachmentIndex > 0 {
      app.selection := app.selection.(attachmentIndex := app.selection.attachmentIndex - 1);
    }
  }

  /** `handle_navigation` */
  method HandleNavigation(app: App, d: NavigationDirection)
    modifies app, app.emailStore
    ensures app.Model() == AfterNavigation(old(app.Model()), d)
  {
    match app.activePane {
      case Folders => FolderNavigationM(app, d);
      case List => ListNavigationM(app, d);
      case Content =>
        match d {
          case Down => app.Scroll(ScrollDirection.Down, 1);
          case Up => app.Scroll(ScrollDirection.Up, 1);
        }
      case Attachments =>
        match d {
          case Down => AttachmentDownM(app);
          case Up => AttachmentUpM(app);
        }
    }
  }

  method FolderNavigationM(app: App, d: NavigationDirection)
    modifies app, app.emailStore
    ensures app.Model() == FolderNavigation(old(app.Model()), d)
  {
    var total := CountVisibleFolders(app.emailStore.root);
    var oldIndex := app.selection.folderIndex;
    app.selection := app.selection.(folderIndex := FolderStep(oldIndex, total, d));
    if app.selection.folderIndex != oldIndex {
      app.LoadSelectedFolderMessagesM();
    }
  }

  method ListNavigationM(app: App, d: NavigationDirection)
    modifies app, app.emailStore
    ensures app.Model() == ListNavigation(old(app.Model()), d)
  {
    var current := app.emailStore.GetCurrentFolder();
    var ei := app.selection.emailIndex;
    match d {
      case Down =>
        if ei + 1 < |current.emails| {
          SelectRowM(app, ei + 1);
          LoadAroundM(app, ei + 1);
        }
      case Up =>
        if ei > 0 {
          SelectRowM(app, ei - 1);
          app.SetState(EmailList);
        }
    }
  }

  method SelectRowM(app: App, k: nat)
    modifies app, app.emailStore
    ensures app.Model() == SelectRow(old(app.Model()), k)
  {
    app.selection := app.selection.(emailIndex := k);
    app.emailStore.SelectEmail(k);
  }

  method LoadAroundM(app: App, k: nat)
    modifies app, app.emailStore
    ensures app.Model() == LoadAround(old(app.Model()), k)
  {
    var err := app.emailStore.LoadMoreMessagesIfNeededM(app.scanner, k);
    if err.Some? {
      app.SetStatus("Error loading more messages: " + err.value);
    }
    app.SetState(EmailList);
  }

  /** `handle_folder_selection_and_switch_view` (`switchView`) and the folder case of
      `handle_selection`. */
  method EnterSelectedFolderM(app: App, switchView: bool)
    modifies app, app.emailStore
    ensures app.Model() == EnterSelectedFolder(old(app.Model()), switchView)
  {
    var folderPath := GetFolderPathFromDisplayIndex(app.emailStore.root, app.selection.folderIndex);
    if folderPath.Some? {
      app.emailStore.ResetPath();
      app.emailStore.EnterFolderByPath(folderPath.value);
      var err := app.emailStore.EnsureCurrentFolderLoadedWithLimitM(app.scanner, LoadCount);
      if err.None? {
        FolderEnteredM(app, switchView);
      } else {
        app.SetStatus("Error loading folder: " + err.value);
      }
    }
  }

  method FolderEnteredM(app: App, switchView: bool)
    modifies app, app.emailStore
    ensures app.Model() == FolderEntered(old(app.Model()), switchView)
  {
    app.selection := app.selection.(emailIndex := 0, scrollOffset := 0, rememberedEmailIndex := None);
    var current := app.emailStore.GetCurrentFolder();
    if |current.emails| > 0 {
      app.emailStore.SelectEmail(0);
    }
    if switchView {
      app.currentView := if app.contentPaneHidden then Messages else MessagesContent;
      app.activePane := List;
    }
    app.SetState(EmailList);
  }

  /** `handle_attachment_open` */
  method HandleAttachmentOpen(app: App, customCommand: bool)
    modifies app, app.emailStore
    ensures app.Model() == AfterAttachmentOpen(old(app.Model()), customCommand)
  {
    var email := app.emailStore.GetSelectedEmailM(app.scanner.fs);
    if email.Some? && app.selection.attachmentIndex < |email.value.attachments| {
      var filename := email.value.attachments[app.selection.attachmentIndex].filename;
      if customCommand {
        app.SetStatus("Custom command for " + filename + ": Not implemented yet");
      } else {
        app.SetStatus("Opening " + filename + ": Not implemented yet");
      }
    }
  }

  /** `handle_selection` */
  method HandleSelection(app: App)
    modifies app, app.emailStore
    ensures app.Model() == AfterSelection(old(app.Model()))
  {
    match app.activePane {
      case Folders => EnterSelectedFolderM(app, false);
      case List =>
        var current := app.emailStore.GetCurrentFolder();
        if app.selection.emailIndex < |current.emails| {
          app.emailStore.SelectEmail(app.selection.emailIndex);
          app.currentView := if app.contentPaneHidden then Messages else MessagesContent;
          app.activePane := List;
          app.SetState(EmailContent);
        }
      case Content =>
      case Attachments => HandleAttachmentOpen(app, false);
    }
  }

  /** `handle_back_navigation` */
  method HandleBackNavigation(app: App)
    modifies app, app.emailStore
    ensures app.Model() == AfterBackNavigation(old(app.Model()))
  {
    match app.activePane {
      case Folders => ExitToFolderViewM(app);
      case List => ExitToFolderViewM(app);
      case Content => app.SetState(EmailList);
      case Attachments =>
        app.currentView := MessagesContent;
        app.activePane := List;
        app.SetState(EmailList);
    }
  }

  method ExitToFolderViewM(app: App)
    modifies app, app.emailStore
    ensures app.Model() == ExitToFolderView(old(app.Model()))
  {
    app.emailStore.ExitFolder();
    app.selection := app.selection.(folderIndex := 0, emailIndex := 0, scrollOffset := 0);
    app.SetState(FolderView);
  }

  method ShowAttachments(app: App)
    modifies app, app.emailStore
    ensures app.Model() == AfterShowAttachments(old(app.Model()))
  {
    var email := app.emailStore.GetSelectedEmailM(app.scanner.fs);
    if email.None? {
      app.SetStatus("No email selected");
    } else if HasAttachments(email.value) {
      app.SetState(AttachmentView);
    } else {
      app.SetStatus("No attachments in this email");
    }
  }

  /** `handle_main_view_input`; it never asks to quit. */
  method HandleMainViewInput(app: App, key: KeyEvent) returns (quit: bool)
    modifies app, app.emailStore
    ensures app.Model() == AfterMainViewKey(old(app.Model()), key) && !quit
  {
    quit := false;
    var plain := key.modifiers == NoModifiers;
    var alt := key.modifiers == AltOnly;
    match key.code {
      case Char(c) =>
        if c == 'j' && plain {
          HandleNavigation(app, NavigationDirection.Down);
        } else if c == 'k' && plain {
          HandleNavigation(app, NavigationDirection.Up);
        } else if c == 'h' && plain {
          app.PrevView();
        } else if c == 'l' && plain {
          if app.activePane == Folders && app.emailStore.currentFolder == [] {
            EnterSelectedFolderM(app, true);
          } else {
            app.NextView();
          }
        } else if c == 'c' && alt {
          app.ToggleContentPane();
        } else if c == 'a' && alt {
          ShowAttachments(app);
        }
      case Down => HandleNavigation(app, NavigationDirection.Down);
      case Up => HandleNavigation(app, NavigationDirection.Up);
      case Tab => app.SwitchPane(Right);
      case BackTab => app.SwitchPane(Left);
      case Enter =>
        if app.activePane == Folders {
          EnterSelectedFolderM(app, true);
        } else {
          HandleSelection(app);
        }
      case Backspace => HandleBackNavigation(app);
      case PageDown =>
        if app.activePane == ActivePane.Content {
          app.Scroll(ScrollDirection.Down, 10);
        }
      case PageUp =>
        if app.activePane == ActivePane.Content {
          app.Scroll(ScrollDirection.Up, 10);
        }
      case _ =>
    }
  }

  /** `handle_attachment_view_input`; it never asks to quit. */
  method HandleAttachmentViewInput(app: App, key: KeyEvent) returns (quit: bool)
    modifies app, app.emailStore
    ensures app.Model() == AfterAttachmentViewKey(old(app.Model()), key) && !quit
  {
    quit := false;
    match key.code {
      case Esc => app.SetState(EmailContent);
      case Char(c) =>
        if c == 'j' {
          AttachmentDownM(app);
        } else if c == 'k' {
          AttachmentUpM(app);
        }
      case Down => AttachmentDownM(app);
      case Up => AttachmentUpM(app);
      case Enter => HandleAttachmentOpen(app, key.modifiers == ShiftOnly);
      case _ =>
    }
  }

  /** `handle_key_event` */
  method HandleKeyEvent(app: App, key: KeyEvent) returns (quit: bool)
    modifies app, app.emailStore
    ensures (app.Model(), quit) == AfterKeyEvent(old(app.Model()), key)
  {
    if key.code == Char('q') && key.modifiers == NoModifiers {
      app.SetState(Quit);
      return true;
    }
    if key.code == Char('?') && key.modifiers == NoModifiers {
      if app.state == Help {
        app.SetState(FolderView);
      } else {
        app.SetState(Help);
      }
      return false;
    }
    match app.state {
      case Help =>
        app.SetState(FolderView);
        quit := false;
      case AttachmentView =>
        quit := HandleAttachmentViewInput(app, key);
      case _ =>
        quit := HandleMainViewInput(app, key);
    }
  }

  /** `handle_input` */
  method HandleInput(app: App, ev: Event) returns (quit: bool)
    modifies app, app.emailStore
    ensures (app.Model(), quit) == AfterInput(old(app.Model()), ev)
  {
    match ev {
      case Key(k) => quit := HandleKeyEvent(app, k);
      case _ => quit := false;
    }
  }
}
