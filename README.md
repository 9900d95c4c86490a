# vulthor in Dafny

vulthor is a terminal reader for mail stored in a Maildir tree, with a
three-pane layout (folders, messages, content) and an optional web mirror of the
message on screen. This project models its navigation engine and proves
properties of that model:

- **Messages and folders** (`email.dfy`, module `Mail`): the two-stage loading of
  a message (headers first, the body on demand), the folder counters kept by
  `add_email`, the INBOX-first order of subfolders, display names and the
  recursive listing of all messages.
- **The folder store** (`store.dfy`, module `Store`): the path of child indices
  to the current folder, the bounds-checked selected message, and the three load
  policies (full, capped, load more when the cursor nears the end).
- **The Maildir scanner** (`maildir.dfy`, module `Maildir`, over the abstract
  filesystem of `fs.dfy`): the structure-only scan at start-up and the capped,
  clear-then-rescan load of one folder from `cur` and then `new`.
- **The application state** (`app.dfy`, module `App`): the view and pane tables,
  the two three-view chains keyed by the hidden-content flag, pane switching with
  wrap-around, the selection memory across pane and view moves, scrolling, and
  the start-up choice of the INBOX row.
- **Keyboard handling** (`input.dfy` and `folder_list.dfy`): the flattened folder
  list and its inverse from a row to a path, the global and main-view keys, and
  the navigation, folder-entry, selection and back actions.
- **Text helpers** (`web.dfy`, `ui.dfy`): HTML escaping, the plain-text to HTML
  conversion, the fingerprint and change-only emission of the mirror's event
  stream, the JSON record of the current message, and the column arithmetic,
  truncation, padding, sender extraction and folder rows of the terminal view.

`text.dfy` holds the Rust string operations the code relies on, `fs.dfy` the
filesystem, `mail_parser.dfy` what the mail parser yields, and `wrappers.dfy`
`Option` and `Result`.

Every entity whose fields the Rust code updates in place (`Email`, `Folder`
loads, `EmailStore`, `App`) has a value model and pure transition functions
(`AfterEnterFolder`, `AfterSwitchPane`, …). A class mirrors it: each method
changes the fields step by step, as the Rust method does, and ensures that the
new `Model()` is the transition function applied to the old one. The properties
are lemmas about the transition functions, so they hold of the methods too.
Loops of the source (`get_current_folder`, the message scan, the Markdown
conversion, the truncation loop, the event stream) are `while` loops proved
against a function on their inputs.

A `Folder` owns its subfolders by value (a Rust `Vec<Folder>`), so it is a
datatype and a change to a nested folder is the replacement of that subtree.

## Model

| member | source | states |
|---|---|---|
| Mail.HeadersOf | src/email.rs:105-137 | a missing subject is shown as "(no subject)", a present one verbatim |
| Mail.AttachmentsOf | src/email.rs:158-186 | one attachment record per attachment part, in order |
| Mail.ParseHeadersOnly | src/email.rs:70-81 | succeeds exactly when the file reads and parses; on success the headers are those read from the parsed message, the email is headers-only and nothing else changes |
| Mail.ParseFromFile | src/email.rs:83-156 | succeeds exactly when the file parses; the result is fully loaded, keeps path and unread flag, and keeps the attachments already listed as a prefix |
| Mail.EnsureFullyLoaded | src/email.rs:97-102 | a no-op on a fully loaded email; from headers-only it succeeds iff the file parses, and a success is fully loaded with path, unread flag and earlier attachments kept |
| Mail.EnsureFullyLoadedIdempotent | src/email.rs:97-102 | loading a loaded email again changes nothing |
| Mail.FullLoadReadsHeaders | src/email.rs:83-95 | the full load of a parsable headers-only email takes the parsed headers and adds one attachment per attachment part |
| Mail.UnreadInBound | src/email.rs:230-236 | the unread messages of a list are at most its length |
| Mail.AddEmail | src/email.rs:230-236 | exactly one message appended, total count up by one, unread count up by one iff the message is unread, no other field changed |
| Mail.AddEmailKeepsCounts | src/email.rs:230-236 | counters that agree with the messages still agree after an add, so unread never exceeds total |
| Mail.AddSubfolder | src/email.rs:238-240 | the subfolder appended, nothing else changed |
| Mail.Insert | src/email.rs:242-253 | insertion of one child position into a list of positions yields valid positions, one more of them |
| Mail.InsertPermutes | src/email.rs:242-253 | insertion adds the position and keeps every other one |
| Mail.InsertSorted | src/email.rs:242-253 | insertion into a list sorted by the INBOX-first comparator keeps it sorted |
| Mail.SortPrefix | src/email.rs:242-253 | the first n positions, sorted, are n valid positions |
| Mail.SortPrefixPermutes | src/email.rs:242-253 | the sorted prefix holds each of the positions 0 .. n-1 exactly once |
| Mail.SortPrefixSorted | src/email.rs:242-253 | the sorted prefix is ordered by the comparator |
| Mail.SortedOrder | src/email.rs:242-253 | one valid position per child |
| Mail.SortedSubfolders | src/email.rs:242-253 | as many folders as children |
| Mail.SortedOrderIsSortedPermutation | src/email.rs:242-253 | the order is a permutation of the child positions and ascending under the comparator |
| Mail.SortedSubfoldersPermutation | src/email.rs:242-253 | the sorted children are a rearrangement of the children |
| Mail.PickInsert | src/email.rs:242-253 | the children picked by an insertion are those picked before plus the inserted one |
| Mail.PickSortPrefix | src/email.rs:242-253 | the children picked by the sorted prefix are, as a multiset, the first n children |
| Mail.InboxSortsFirst | src/email.rs:246-248 | when some child is named exactly "INBOX", the first sorted child is named "INBOX" |
| Mail.SortedOthersAscending | src/email.rs:246-249 | a sorted child not named "INBOX" has a name no greater, in code-point order, than every child after it |
| Mail.DisplayName | src/email.rs:255-261 | the name itself iff nothing is unread, else the name followed by " (n)" with the unread count in decimal |
| Mail.AllEmailsCount | src/email.rs:264-277 | the recursive listing has exactly as many messages as the folders of the tree hold together |
| Mail.AllEmailsInCount | src/email.rs:270-274 | the same for the listing of a sequence of subfolders |
| Mail.AllEmailsContainsChild | src/email.rs:264-277 | the folder's own messages and every subfolder's listing are contained in the listing |
| Mail.AllEmailsInContains | src/email.rs:270-274 | each subfolder's listing is contained in the listing of the sequence |
| Store.WalkFollowsEffective | src/email.rs:298-306 | the forgiving walk of the current path never fails: it equals the strict lookup of the indices it actually follows |
| Store.Walk | src/email.rs:298-306 | the forgiving walk of get_current_folder; Store.WalkFollowsEffective, Store.WalkOnValidPath and Store.WalkAppend state its properties |
| Store.FolderAtPath | src/email.rs:298-306 | the strict lookup, defined only when every index is in range; Store.WalkOnValidPath and FolderList.FlatListEntries relate it to the walk and the flat list |
| Store.CurrentFolder | src/email.rs:298-306 | the folder the walk of the current path reaches; Store.EnterReachesChild and Store.NavigationKeepsSelectionInBounds state its properties |
| Store.WalkOnValidPath | src/email.rs:298-306 | on a path whose indices are all in range the walk skips nothing and reaches the folder the strict lookup finds |
| Store.WalkAppend | src/email.rs:298-306 | one more index descends into the child it names when in range and is skipped otherwise, with later indices still applied |
| Store.WalkReplaceAt | src/email.rs:309-318 | writing through the mutable walk puts the new folder where the walk reaches, keeping the root's number of children |
| Store.ReplaceAtWalk | src/email.rs:309-318 | writing back the folder the walk reaches leaves the tree unchanged |
| Store.AfterEnterFolder | src/email.rs:320-327 | an in-range index is pushed and the selection cleared; an out-of-range index changes nothing; the tree is untouched |
| Store.AfterExitFolder | src/email.rs:391-397 | at the root nothing changes; otherwise the last index is popped and the selection cleared |
| Store.EnterThenExit | src/email.rs:320-397 | entering an existing child and exiting restores the path, with the selection cleared |
| Store.EnterReachesChild | src/email.rs:320-327 | entering an existing child makes it the current folder |
| Store.AfterSelectEmail | src/email.rs:399-405 | the selection becomes Some(i) only when i indexes a message of the current folder; otherwise nothing changes |
| Store.NavigationKeepsSelectionInBounds | src/email.rs:320-333 | selecting, entering (by index or by path) and exiting keep the selection pointing at a message of the current folder or empty |
| Store.LoadCurrentFolder | src/email.rs:335-374 | a load of the current folder keeps the path, the selection and the folder's name, path and subfolders; an unlimited load that succeeds leaves it loaded |
| Store.LoadAt | src/email.rs:309-345 | the load of the folder at a path; Store.LoadCurrentFolder and App.LoadAtKeepsCount state its properties |
| Store.EnsureCurrentFolderLoaded | src/email.rs:335-344 | the full load of the current folder; Store.LoadCurrentFolder and Store.LoadedFolderIsLeftAlone state its properties |
| Store.EnsureCurrentFolderLoadedWithLimit | src/email.rs:363-373 | the capped load of the current folder; Store.LoadCurrentFolder and Store.LoadedFolderIsLeftAlone state its properties |
| Store.LoadedFolderIsLeftAlone | src/email.rs:335-389 | the three current-folder load policies do nothing to a loaded folder |
| Store.LoadMoreRule | src/email.rs:376-389 | loading more is a full load exactly when the folder is not loaded and the index is within five of the end, and nothing otherwise; a successful one leaves the folder loaded |
| Store.LoadMoreMessagesIfNeeded | src/email.rs:376-388 | the load-more rule; Store.LoadMoreRule and Store.LoadMoreKeepsMessages state its properties |
| Store.LoadMoreKeepsMessages | src/email.rs:363-389 | after a capped load of an empty folder, loading more keeps the messages already loaded as a prefix |
| Store.SelectedEmailHeaders | src/email.rs:423-428 | present exactly when the selection indexes a message of the current folder, and then that message as stored |
| Store.GetSelectedEmailStores | src/email.rs:407-421 | reading the selected message yields it fully loaded and stores it so, keeping path, selection, message count and counter agreement; when nothing is yielded the store is unchanged |
| Store.GetSelectedEmail | src/email.rs:407-420 | the read of the selected message; Store.GetSelectedEmailStores states its properties |
| Store.MarkdownIsBodyOfSelected | src/email.rs:437-448 | the markdown is the body text of the message that reading the selection yields, with the same effect on the store |
| Store.PathNamesAppend | src/email.rs:450-463 | one more index adds the name of the child it reaches, or nothing when skipped |
| Store.BreadcrumbEnter | src/email.rs:450-463 | at the root the breadcrumb is "Mail"; entering a child appends " > " and the child's name |
| Store.Breadcrumb | src/email.rs:450-462 | the breadcrumb of a path; Store.BreadcrumbEnter and Store.PathNamesAppend state its properties |
| Store.EmailStore.constructor | src/email.rs:288-296 | an empty, unloaded root named "Mail" at the Maildir path, at the root, nothing selected |
| Store.EmailStore.GetCurrentFolder | src/email.rs:298-307 | the loop over the path returns the folder the forgiving walk reaches |
| Store.EmailStore.EnterFolder | src/email.rs:320-327 | the new state is the enter transition of the old |
| Store.EmailStore.EnterFolderByPath | src/email.rs:329-333 | the path is extended unchecked and the selection cleared |
| Store.EmailStore.ResetPath | src/input.rs:268 | the path is emptied, nothing else changes |
| Store.EmailStore.ExitFolder | src/email.rs:391-397 | the new state is the exit transition of the old |
| Store.EmailStore.SelectEmail | src/email.rs:399-405 | the new state is the bounds-checked selection of the old |
| Store.EmailStore.Deselect | src/app.rs:221 | only the selection is cleared |
| Store.EmailStore.LoadFolderAt | src/email.rs:309-345 | the folder the walk reaches is loaded through the scanner unless already loaded, and the error is returned |
| Store.EmailStore.EnsureCurrentFolderLoadedM | src/email.rs:335-345 | state and error as the full current-folder policy gives them |
| Store.EmailStore.EnsureCurrentFolderLoadedWithLimitM | src/email.rs:363-374 | state and error as the capped current-folder policy gives them |
| Store.EmailStore.EnsureSpecificFolderLoadedM | src/email.rs:347-361 | an existing child of the current folder loaded in full unless loaded; any other index changes nothing |
| Store.EmailStore.LoadMoreMessagesIfNeededM | src/email.rs:376-389 | state and error as the load-more rule gives them |
| Store.EmailStore.EnsureFolderAtPathLoadedM | src/app.rs:398-401 | a folder at a valid path loaded with a cap of the visible rows unless loaded; any other path changes nothing |
| Store.EmailStore.GetSelectedEmailM | src/email.rs:407-421 | state and result as the read of the selected message gives them |
| Store.EmailStore.GetSelectedEmailMarkdown | src/email.rs:437-448 | state and result as the markdown read gives them |
| Store.EmailStore.GetFolderPath | src/email.rs:450-463 | the loop builds "Mail" and the names along the walk, joined by " > " |
| Maildir.MakeEmail | src/maildir.rs:149-172 | the message for an accepted file has its path, is unread exactly when told so, is headers-only; when its file parses its headers are those read from the parsed message, and when they do not parse its subject starts "Parse Error: " |
| Maildir.ScanEntries | src/maildir.rs:127-179 | the scan of a listing changes only messages and counters, keeps the earlier messages as a prefix, adds only messages from this directory, keeps the counters in agreement, takes at most the remaining budget, and without a budget or listing error adds one message per accepted file |
| Maildir.ScanEmailsInFolderWithLimit | src/maildir.rs:127-179 | the loop over the listing ends with the outcome the recursive scan gives, budget checked before each entry and a listing error ending it |
| Maildir.LoadSpec | src/maildir.rs:81-125 | a loaded folder, or a limited load of a folder with messages, is left alone; name, path and subfolders never change; a load without error is loaded iff no limit was given; a failed load keeps the loaded flag; a folder that is not a Maildir keeps its messages |
| Maildir.LoadFolderEmailsWithLimit | src/maildir.rs:81-125 | the method's outcome is the load described above, including early returns on a scan error |
| Maildir.LoadFolderEmails | src/maildir.rs:73-79 | the unlimited load |
| Maildir.LoadRespectsLimit | src/maildir.rs:90-142 | a load with limit l leaves at most l messages unless it was skipped and left the messages as they were |
| Maildir.LoadReplacesMessages | src/maildir.rs:98-117 | a load that reads a Maildir clears before rescanning: the counters match the messages, those from cur come first and are read, the rest come from new and are unread |
| Maildir.IsMaildir | src/maildir.rs:99-103 | the test that cur, new and tmp all exist; Maildir.LoadReplacesMessages states what a load does when it holds |
| Maildir.FullLoadCountsFiles | src/maildir.rs:112-172 | an unlimited load without listing errors succeeds, marks the folder loaded and yields exactly one message per accepted file of cur and new |
| Maildir.ScanEntriesCapped | src/maildir.rs:137-142 | a budgeted scan equals the unbudgeted one, or it stopped without error after taking exactly its budget, a prefix of what the unbudgeted scan takes |
| Maildir.ScanDirCapped | src/maildir.rs:127-142 | the same for the scan of one directory |
| Maildir.ScanDir | src/maildir.rs:127-179 | the scan of one directory; Maildir.ScanDirCapped and Maildir.FullLoadCountsFiles state its properties |
| Maildir.FullLoadExtendsCappedLoad | src/maildir.rs:81-125 | the full reload after a capped load of an empty folder keeps the capped messages as a prefix |
| Maildir.SubfoldersStep | src/maildir.rs:45-66 | one more listing entry adds the folder it yields, if any, after the others |
| Maildir.EntryFolderIsSubtree | src/maildir.rs:49-64 | a directory entry that is not skipped yields exactly the subfolder built for it |
| Maildir.ScanFolderStructureOnly | src/maildir.rs:39-70 | the loop appends, in listing order, one subfolder per directory entry not named cur, new, tmp or starting with ".", each scanned recursively |
| Maildir.ScanSpec | src/maildir.rs:17-36 | succeeds iff the root is a directory, with a root named "Mail" at the root path; a missing root gives the "does not exist" error |
| Maildir.Scan | src/maildir.rs:17-36 | the method returns the scan described above |
| Maildir.SubtreeStructureOnly | src/maildir.rs:39-70 | the tree built below a directory has no messages, zero counters, nothing loaded, no skipped directory as a folder and each child's path its parent's plus its name |
| Maildir.SubfoldersStructureOnly | src/maildir.rs:45-66 | the same for every subfolder a listing yields |
| Maildir.ScanYieldsStructureOnly | src/maildir.rs:17-36 | a successful scan yields such a tree |
| Maildir.EmailFileNameRefuses | src/maildir.rs:182-192 | hidden names and names ending in `.lock` or `.tmp` are refused |
| Maildir.EmailFileNameAccepts | src/maildir.rs:182-192 | a sufficient condition only: a name starting with anything but `.` and ending in neither `k` nor `p` is accepted |
| Maildir.IsEmailFile | src/maildir.rs:182-192 | a regular file with an accepted name; Maildir.EmailFileNameRefuses and Maildir.EmailFileNameAccepts state which names are accepted |
| FolderList.CountVisibleFolders | src/input.rs:437-456 | the loop over the children adds one plus the recursive count for each, giving the number of folders below the root |
| FolderList.CountVisible | src/input.rs:437-456 | the folder count; FolderList.FlatListLength, FolderList.CountInUpdate and FolderList.ReplaceAtKeepsCount state its properties |
| FolderList.CountInUpdate | src/input.rs:437-456 | exchanging one tree for one with as many folders keeps the count |
| FolderList.ReplaceAtKeepsCount | src/input.rs:437-456 | a load or message update of the folder the walk reaches keeps the number of visible folders |
| FolderList.BuildFlatFolderList | src/input.rs:492-509 | the loop returns the pre-order rows: the folder itself unless it is the root, then each child's rows in sorted order |
| FolderList.FlatList | src/input.rs:492-509 | the rows of the folder pane; FolderList.FlatListLength and FolderList.FlatListEntries state its properties |
| FolderList.SumOverInsert | src/input.rs:492-509 | inserting a child into the order adds that child's rows to the row count |
| FolderList.SumOverSortPrefix | src/input.rs:492-509 | the row count of the sorted children does not depend on the order |
| FolderList.SumOverSorted | src/input.rs:492-509 | the rows of the sorted children number the folders below the folder |
| FolderList.FlatFromLength | src/input.rs:492-509 | the rows built at a depth number the folders below, plus one when not at the root |
| FolderList.FlatChildrenLength | src/input.rs:502-506 | the children's rows number the weight of the children listed |
| FolderList.FlatListLength | src/input.rs:437-509 | the flat list has exactly as many rows as the folder count |
| FolderList.FlatFromBelow | src/input.rs:492-509 | every row lies below the folder it was built from: its path extends that path, its depth counts the extra steps, and the extra steps reach its folder |
| FolderList.FlatChildrenBelow | src/input.rs:502-506 | the same for the rows of the children |
| FolderList.FlatListEntries | src/input.rs:492-509 | every row has depth at least 1, equal to the length of its path, and its path leads from the root to its folder |
| FolderList.FlatChildrenAt | src/input.rs:502-506 | the row after those of the first k sorted children is the row of the k-th sorted child |
| FolderList.FindSound | src/input.rs:472-490 | what the search over the raw children finds is the rest of the target's path |
| FolderList.FindFolderPath | src/input.rs:472-490 | the depth-first search; FolderList.FindSound and FolderList.FindComplete state its properties |
| FolderList.FindInSound | src/input.rs:481-486 | the same for the search from child i on |
| FolderList.FindComplete | src/input.rs:472-490 | a path valid from the folder is found, and found as itself |
| FolderList.FindInReaches | src/input.rs:481-486 | the search from a child at or before the first index of a valid path finds that path |
| FolderList.DisplayIndexResolves | src/input.rs:458-470 | a display index resolves iff it is below the folder count, and then to the raw-index path that reaches that row's folder |
| FolderList.GetFolderPathFromDisplayIndex | src/input.rs:458-470 | the path of a display index; FolderList.DisplayIndexResolves states its properties |
| App.AvailablePanes | src/app.rs:26-43 | every view lists at least one pane, and no pane twice |
| App.DefaultPane | src/app.rs:45-61 | for every view and either flag value the default pane is one of the available panes |
| App.NextViewOf | src/app.rs:64-80 | the view after a view; its properties are App.ViewChain and App.PrevUndoesNext |
| App.PrevViewOf | src/app.rs:83-99 | the view before a view; its properties are App.ViewChain and App.PrevUndoesNext |
| App.ViewChain | src/app.rs:64-99 | with content shown the views chain FolderMessages, MessagesContent, Content and with it hidden FolderMessages, Messages, MessagesAttachments; next moves one step along, prev one step back, next stops at the last view, prev at FolderMessages, and off the chain neither moves |
| App.PrevUndoesNext | src/app.rs:64-99 | prev undoes next and next undoes prev wherever they move |
| App.AfterSetState | src/app.rs:157-179 | the state is set, Quit sets the quit flag, EmailList and EmailContent focus the list or content pane only when the view shows it, any new focus is an available pane, and view, flag, store and selection stay |
| App.PanePosition | src/app.rs:186-189 | the position of a listed pane is its first occurrence; an unlisted pane counts as position 0 |
| App.StepIndex | src/app.rs:191-206 | a right step is +1 modulo the number of panes and a left step its inverse, so both wrap |
| App.SwitchedPane | src/app.rs:182-208 | the pane switched to is always one the current view shows |
| App.SwitchRightThenLeft | src/app.rs:191-206 | a step right then a step left returns to a listed pane |
| App.AfterSwitchPane | src/app.rs:182-240 | the switch_pane transition; App.SwitchedPane, App.SwitchRightThenLeft and App.SwitchPaneKeepsPaneAvailable state its properties |
| App.Snapshot | src/app.rs:215-279 | leaving the list deselects the message, keeps the tree and path, remembers the list cursor when a message was selected, and otherwise changes no selection field |
| App.ToggledView | src/app.rs:289-331 | the toggled view lies on the chain of the new flag value, and is FolderMessages exactly when the old view was |
| App.AfterNextView | src/app.rs:243-265 | the next_view transition; App.NextViewKeepsPaneAvailable and App.PrevThenNextRestoresSelection state its properties |
| App.AfterPrevView | src/app.rs:268-286 | the prev_view transition; App.PrevViewKeepsPaneAvailable and App.PrevThenNextRestoresSelection state its properties |
| App.AfterToggleContentPane | src/app.rs:289-331 | the toggle_content_pane transition; App.ToggledView, App.ToggleTwice and App.ToggleKeepsPaneAvailable state its properties |
| App.AfterScroll | src/app.rs:344-358 | scrolling up subtracts and saturates at 0, scrolling down adds; nothing but the offset changes |
| App.ScrollDownThenUp | src/app.rs:344-358 | scrolling down then up by the same amount comes back |
| App.CurrentEmailForWebOnlyWithContent | src/app.rs:362-368 | outside MessagesContent and Content nothing is returned and nothing changes; inside them the result is the fully loaded selected message |
| App.CurrentEmailForWeb | src/app.rs:362-368 | the web read of the selected message; App.CurrentEmailForWebOnlyWithContent states its properties |
| App.TransitionsKeepPaneAvailable | src/app.rs:157-331 | set_state, switch_pane, next_view, prev_view, toggle_content_pane and scroll all keep the focused pane among the panes the view shows |
| App.SetStateKeepsPaneAvailable | src/app.rs:157-179 | set_state keeps the focused pane available |
| App.ToggleKeepsPaneAvailable | src/app.rs:289-331 | after a toggle the focused pane is available, whatever it was before |
| App.ScrollKeepsPaneAvailable | src/app.rs:344-358 | scroll keeps the focused pane available |
| App.SwitchPaneKeepsPaneAvailable | src/app.rs:182-240 | switch_pane keeps the focused pane available |
| App.NextViewKeepsPaneAvailable | src/app.rs:243-265 | next_view keeps the focused pane available |
| App.PrevViewKeepsPaneAvailable | src/app.rs:268-286 | prev_view keeps the focused pane available |
| App.RestoreKeepsView | src/app.rs:223-258 | restoring the selection keeps view, flag and path, and can move the focus only to an available pane |
| App.RestoreSelects | src/app.rs:223-234 | restoring remembered k sets the list cursor to k and selects message k when the current folder has it, leaving the selection alone otherwise |
| App.PrevThenNextRestoresSelection | src/app.rs:243-286 | h from MessagesContent then l returns to MessagesContent with the list focused, the same cursor, the position remembered and, when it is a message of the folder, that message selected again |
| App.ToggleTwice | src/app.rs:289-331 | toggling twice restores the flag, restores the view exactly when it was FolderMessages or the flag's middle view, and focuses the default pane |
| App.FirstInboxFrom | src/app.rs:415-420 | the first sorted child from i on whose display name equals "inbox" ignoring ASCII case, or none when no later child has that name |
| App.FindInboxFolderAsWritten | src/app.rs:412-427 | a result exactly when the root has children, and then a position among the root's children |
| App.FindInboxFolderIsInboxRow | src/app.rs:371-427 | the corrected row exists exactly when the root has children, is a depth-1 row of the folder list holding the child found, and is an inbox row whenever some child's display name is "inbox" ignoring case |
| App.FindInboxFolder | src/app.rs:412-427 | the corrected inbox search; App.FindInboxFolderIsInboxRow states its properties |
| App.FindInboxFolderAsWrittenMisses | src/app.rs:412-427 | for a root with children "Archive" (holding "2023") and "Inbox" the code yields 1, row 1 of the folder list is "2023", and the inbox row is 2 |
| App.SelectedFolderIsRow | src/app.rs:431-445 | a folder is under the cursor exactly when the cursor is a row of the folder list, and it is that row's folder |
| App.SelectedFolder | src/app.rs:431-444 | the folder under the cursor; App.SelectedFolderIsRow states its properties |
| App.LoadSelectedFolderMessages | src/app.rs:388-409 | loading the folder under the cursor keeps the layout, state, folder cursor, scanner and quit flag (what it loads: App.LoadSelectedFolderLoadsRow) |
| App.LoadSelectedFolderClearsMemory | src/app.rs:405-407 | on a valid row the message cursor becomes 0 and the remembered position is forgotten, with the store's path and selection kept |
| App.LoadSelectedFolderLoadsRow | src/app.rs:388-409 | on a row of the folder list the store becomes the load of that row's folder capped at the visible rows, and a failure sets the status to "Error loading folder messages: " and the error; past the end of the list nothing changes |
| App.LoadAtKeepsCount | src/email.rs:309-318 | a load keeps the number of visible folders |
| App.GetSelectedEmailKeepsCount | src/email.rs:407-421 | reading the selected message keeps the number of visible folders |
| App.LoadSelectedFolderKeepsCount | src/app.rs:388-409 | loading the folder under the cursor keeps the folder list the same length |
| App.PerformInitialLoading | src/app.rs:380-386 | afterwards the initial load is marked done, and a call after the first changes nothing |
| App.InitialLoadingOnce | src/app.rs:380-386 | a second call changes nothing |
| App.InitialLoadingLoadsCursorRow | src/app.rs:380-386 | the first call is the load of the folder under the cursor followed by marking the load done; on a row of the folder list it loads that row's folder capped at the visible rows and resets the message cursor and its memory |
| App.InitialModel | src/app.rs:135-154 | the start state: folder-and-messages view, folder pane focused, content shown, nothing loaded or remembered, message cursor 0, and the folder cursor on the folder-list row (depth 1) of the root child that `find_inbox_folder` chooses, or 0 for a root without children; the focus is available |
| App.App.constructor | src/app.rs:135-154 | the object starts in InitialModel of its store and scanner |
| App.App.SetState | src/app.rs:157-179 | the new state is the set_state transition of the old |
| App.App.RememberSelection | src/app.rs:215-279 | the new state is the snapshot of the old |
| App.App.RestoreSelection | src/app.rs:223-258 | the new state is the restore of the old |
| App.App.SwitchPane | src/app.rs:182-240 | the new state is the switch_pane transition of the old |
| App.App.NextView | src/app.rs:243-265 | the new state is the next_view transition of the old |
| App.App.PrevView | src/app.rs:268-286 | the new state is the prev_view transition of the old |
| App.App.ToggleContentPane | src/app.rs:289-331 | the new state is the toggle transition of the old |
| App.App.SetStatus | src/app.rs:334-336 | only the status message is set |
| App.App.ClearStatus | src/app.rs:339-341 | only the status message is cleared |
| App.App.Scroll | src/app.rs:344-358 | the new state is the scroll transition of the old |
| App.App.GetCurrentEmailForWeb | src/app.rs:362-368 | state and result as the web read gives them |
| App.App.LoadSelectedFolderMessagesM | src/app.rs:388-409 | the new state is the folder-under-cursor load of the old |
| App.App.PerformInitialLoadingIfNeeded | src/app.rs:380-386 | the new state is the initial load of the old |
| Input.AttachmentDown | src/input.rs:244-250 | the attachment cursor moves without changing layout or state |
| Input.AttachmentUp | src/input.rs:251-255 | the attachment cursor moves without changing layout or state |
| Input.AfterAttachmentOpen | src/input.rs:399-429 | opening an attachment only reports, keeping layout and state |
| Input.AfterShowAttachments | src/input.rs:115-126 | Alt+a never changes the layout |
| Input.ShowAttachmentsOutcome | src/input.rs:114-125 | Alt+a enters the attachment view exactly when a selected message has attachments, and then changes only the store and state; otherwise it changes only the store and sets "No email selected" or "No attachments in this email" accordingly |
| Input.QuitOnlyOnQ | src/input.rs:17-21 | exactly the unmodified `q` returns true, and then the state is Quit with the quit flag set |
| Input.HelpKeys | src/input.rs:22-39 | an unmodified `?` enters Help from any other state and leaves Help to FolderView; in Help any other key but `q` only returns to FolderView |
| Input.OnlyKeysAct | src/input.rs:4-13 | resizes and other events change nothing and do not quit |
| Input.AfterInput | src/input.rs:4-13 | the event handler; Input.OnlyKeysAct states its properties |
| Input.AfterKeyEvent | src/input.rs:15-43 | the key handler; Input.QuitOnlyOnQ, Input.HelpKeys and Input.KeyEventKeepsPaneAvailable state its properties |
| Input.AfterMainViewKey | src/input.rs:45-140 | the main-view key map; Input.JMovesFolderCursor, Input.LEntersRowUnderCursor, Input.HThenLRestoresSelection, Input.AltCTwice and Input.MainViewKeepsPane state its properties |
| Input.AfterAttachmentViewKey | src/input.rs:142-172 | the attachment-view key map; Input.AttachmentViewKeepsPane states its properties |
| Input.AfterNavigation | src/input.rs:174-259 | the j/k and arrow transition; Input.FolderCursor, Input.ListCursorBounded, Input.AttachmentCursor and Input.NavigationKeepsPane state its properties |
| Input.FolderNavigation | src/input.rs:176-199 | the folder-pane case; Input.FolderCursorStep and Input.FolderStepInPlace state its properties |
| Input.ListNavigation | src/input.rs:200-229 | the list case; Input.ListDownSelectsNext, Input.ListUpSelectsPrevious and Input.ListCursorBounded state its properties |
| Input.SelectRow | src/input.rs:207-208 | the row selected in the cursor and the store; Input.ListDownSelectsNext and Input.ListUpSelectsPrevious state its effect |
| Input.LoadAround | src/input.rs:210-218 | more messages loaded under the load-more rule and the list state set; Store.LoadMoreRule states the rule |
| Input.FolderStep | src/input.rs:182-193 | a folder cursor on a row stays on a row |
| Input.FolderCursorStep | src/input.rs:176-198 | in the folder pane j/k moves the cursor one bounded step, keeps the focus and keeps the folder list's length |
| Input.FolderCursor | src/input.rs:176-198 | the cursor stays in [0, total), and down then up returns to the same row when down moved |
| Input.FolderStepInPlace | src/input.rs:176-198 | a folder-pane step that leaves the cursor where it is changes nothing, so nothing is loaded |
| Input.ListDownSelectsNext | src/input.rs:200-219 | in the list, down with a next message moves the cursor to it, selects it, keeps the path and sets the list state |
| Input.ListUpSelectsPrevious | src/input.rs:221-227 | in the list, up from a row above 0 moves the cursor to the row before, selects that message in the store and sets the list state; at row 0 nothing changes |
| Input.ListCursorBounded | src/input.rs:200-229 | in both directions the list cursor moves by at most one row and, when it was on a message of the current folder, stays on one |
| Input.AttachmentCursor | src/input.rs:235-258 | up never increases the attachment cursor; down either keeps it or moves it one step to an attachment of the selected message |
| Input.EnterEntersRowUnderCursor | src/input.rs:261-305 | entering from the folder pane replaces the path by the one that reaches the row under the cursor; on success the view is Messages or MessagesContent by the flag, the list focused, cursor 0, memory cleared and message 0 selected iff there is one; on failure only the error is reported |
| Input.EnterSelectedFolder | src/input.rs:261-306 | entering the folder under the cursor; Input.EnterEntersRowUnderCursor and Input.EnterSelectedFolderKeepsPane state its properties |
| Input.FolderEntered | src/input.rs:281-300 | the reset after a successful entry; Input.EnterEntersRowUnderCursor states it |
| Input.AfterSelection | src/input.rs:308-374 | the Enter transition; Input.EnterEntersRowUnderCursor and Input.SelectionKeepsPane state its properties |
| Input.AfterBackNavigation | src/input.rs:376-397 | the Backspace transition; Input.BackNavigationEffects and Input.BackKeepsPane state its properties |
| Input.ExitToFolderView | src/input.rs:378-384 | up one folder with the cursors zeroed; Input.BackNavigationEffects states it |
| Input.BackNavigationEffects | src/input.rs:376-397 | from the folder pane or the list: up one folder, folder, message and scroll cursors 0, FolderView; from the content pane: the list state with store and selection kept; from the attachments: MessagesContent with the list focused and the list state, store and selection kept |
| Input.HThenLRestoresSelection | src/input.rs:78-93 | `h` from MessagesContent remembers and deselects the message and shows the folder view; `l` back shows MessagesContent with the list focused and the same message selected |
| Input.AltCTwice | src/input.rs:95-99 | Alt+c hides the content pane, a second Alt+c shows it again, and the state is kept |
| Input.JThenLEntersNextFolder | src/input.rs:749-801 | at the top level `j` moves the folder cursor one row without entering anything, and `l` then enters the folder of that row |
| Input.JMovesFolderCursor | src/input.rs:47-50 | `j` in the folder pane at the top level moves the cursor one row, keeps state, path and focus, and stays on a row |
| Input.LEntersRowUnderCursor | src/input.rs:80-93 | `l` in the folder pane at the top level makes the path the row under the cursor |
| Input.NavigationKeepsPane | src/input.rs:174-259 | navigation keeps the focused pane available |
| Input.ListNavigationKeepsPane | src/input.rs:200-229 | list navigation keeps the focused pane available |
| Input.EnterSelectedFolderKeepsPane | src/input.rs:261-305 | entering a folder keeps the focused pane available |
| Input.SelectionKeepsPane | src/input.rs:308-374 | Enter outside the folder pane keeps the focused pane available |
| Input.BackKeepsPane | src/input.rs:376-396 | Backspace keeps the focused pane available |
| Input.CharKeyKeepsPane | src/input.rs:47-126 | the character keys keep the focused pane available |
| Input.MainViewKeepsPane | src/input.rs:45-140 | every main-view key keeps the focused pane available |
| Input.AttachmentViewKeepsPane | src/input.rs:142-172 | every attachment-view key keeps the focused pane available |
| Input.KeyEventKeepsPaneAvailable | src/input.rs:15-43 | every key event keeps the focused pane among the panes the view shows |
| Input.AttachmentDownM | src/input.rs:244-250 | the new state is the bounded attachment step down of the old |
| Input.AttachmentUpM | src/input.rs:251-255 | the new state is the attachment step up of the old |
| Input.HandleNavigation | src/input.rs:174-259 | the new state is the navigation transition of the old |
| Input.FolderNavigationM | src/input.rs:176-198 | the new state is the folder-pane navigation of the old |
| Input.ListNavigationM | src/input.rs:200-229 | the new state is the list navigation of the old |
| Input.SelectRowM | src/input.rs:204-223 | the list cursor and the store's selection move to the row |
| Input.LoadAroundM | src/input.rs:207-216 | more messages loaded under the rule, a failure reported, the list state set |
| Input.EnterSelectedFolderM | src/input.rs:261-305 | the new state is the folder entry of the old |
| Input.FolderEnteredM | src/input.rs:281-341 | the new state is the reset after a successful entry |
| Input.HandleAttachmentOpen | src/input.rs:399-429 | the new state is the attachment-open transition of the old |
| Input.HandleSelection | src/input.rs:308-374 | the new state is the selection transition of the old |
| Input.HandleBackNavigation | src/input.rs:376-396 | the new state is the back transition of the old |
| Input.ExitToFolderViewM | src/input.rs:378-384 | up one folder, the three cursors zeroed, FolderView set |
| Input.ShowAttachments | src/input.rs:115-126 | the new state is the Alt+a transition of the old |
| Input.HandleMainViewInput | src/input.rs:45-140 | the new state is the main-view key transition of the old, and it never quits |
| Input.HandleAttachmentViewInput | src/input.rs:142-172 | the new state is the attachment-view key transition of the old, and it never quits |
| Input.HandleKeyEvent | src/input.rs:15-43 | state and result are the key-event transition of the old state |
| Input.HandleInput | src/input.rs:4-13 | state and result are the event transition of the old state |
| Web.EscapeHtmlAppend | src/web.rs:725-731 | escaping distributes over concatenation |
| Web.EscapeAmp | src/web.rs:726 | `&` becomes `&amp;` |
| Web.EscapeLt | src/web.rs:727 | `<` becomes `&lt;` and no later replacement touches it |
| Web.EscapeGt | src/web.rs:728 | `>` becomes `&gt;` and no later replacement touches it |
| Web.EscapeQuot | src/web.rs:729 | `"` becomes `&quot;` and the apostrophe pass leaves it |
| Web.EscapeApos | src/web.rs:730 | `'` becomes `&#x27;` |
| Web.EscapeHtmlChar | src/web.rs:725-731 | the chain of five replacements applied to one character gives that character's entity, or the character itself |
| Web.EscapeHtmlIsPerChar | src/web.rs:725-731 | the chained replacements equal a single left-to-right pass that replaces each character by its entity (no entity is re-escaped) |
| Web.EscapeHtmlIdentity | src/web.rs:725-731 | text without any of the five special characters is returned unchanged |
| Web.EscapeHtmlHasNoMarkup | src/web.rs:725-761 | no `<`, `>`, `"` or `'` survives escaping |
| Web.UnescapeEscape | src/web.rs:725-731 | decoding the five entities recovers the original text, so escaping loses nothing |
| Web.EscapeHtml | src/web.rs:725-731 | the five replacement passes; Web.EscapeHtmlIsPerChar, Web.UnescapeEscape and Web.EscapeHtmlHasNoMarkup state its properties |
| Web.EscapeEachAppend | src/web.rs:725-731 | the per-character pass distributes over concatenation |
| Web.Classify | src/web.rs:670-715 | a trimmed line is blank exactly when empty; a heading of level 1-3 is `#`×level, a space and its text; an item is `- ` or `* ` and its text; any other line is paragraph text, itself |
| Web.TrimAllAt | src/web.rs:665-670 | every line is trimmed before it is classified |
| Web.MdFromStep | src/web.rs:669-716 | one loop step appends the output of the current line and the rest follows from the new paragraph flag |
| Web.LineStep | src/web.rs:670-716 | one line's output: a blank line or a block closes an open paragraph, a block emits its element, a text line opens a paragraph with `<p>` or continues it with `<br>`; the new flag is set exactly for text lines |
| Web.MarkdownToHtml | src/web.rs:661-723 | the loop over the lines with the paragraph flag, followed by the closing `</p>`, yields the conversion of the whole body |
| Web.EscapeAllSnoc | src/web.rs:714 | escaping a list of paragraph lines extends line by line |
| Web.RenderAppend | src/web.rs:661-723 | rendering a list of blocks distributes over concatenation |
| Web.FlushRender | src/web.rs:672-720 | closing a pending paragraph emits its opened text and `</p>` exactly when it holds a line |
| Web.RenderClosed | src/web.rs:680-706 | a closing line renders the pending paragraph, then its own block, then the rest |
| Web.RendersClosingLine | src/web.rs:671-706 | a blank line, heading or item closes the open paragraph in the block reading as in the loop |
| Web.OpenedSnoc | src/web.rs:708-714 | a text line extends the open paragraph with `<br>` or opens it with `<p>`, followed by its escaped text |
| Web.RendersTextLine | src/web.rs:707-715 | a text line joins the pending paragraph in both readings |
| Web.MdFromRendersBlocks | src/web.rs:661-723 | the line-by-line conversion equals the rendering of the block reading: headings, items and paragraphs whose lines are joined by `<br>` and always closed |
| Web.ParagraphsNonEmpty | src/web.rs:707-715 | no empty paragraph is ever produced |
| Web.MarkdownHtmlIsRender | src/web.rs:661-723 | the conversion of a body renders the blocks of its trimmed lines |
| Web.MarkdownHtml | src/web.rs:661-723 | the conversion of a body; Web.MarkdownHtmlIsRender, Web.MarkdownToHtml and Web.MarkdownExample state its properties |
| Web.ClassifyPlain | src/web.rs:707 | a non-empty line starting with none of `#`, `-`, `*` is paragraph text |
| Web.BlocksFromText | src/web.rs:707-715 | a text line is added to the pending paragraph |
| Web.BlocksFromClosing | src/web.rs:671-706 | a non-text line flushes the pending paragraph and adds its own block |
| Web.ClassifyHeadings | src/web.rs:680-692 | `# Title` is a level-1 heading `Title`, `## Subtitle` a level-2 heading `Subtitle` |
| Web.ClosingThenText | src/web.rs:671-715 | a block followed by one text line gives that block, then a one-line paragraph |
| Web.TextThenBlank | src/web.rs:671-715 | a text line ended by a blank line is a paragraph of its own |
| Web.HeadingsWithParagraphs | src/web.rs:661-723 | heading, text, blank, heading, text is two blocks each followed by a one-line paragraph |
| Web.MarkdownExample | src/web.rs:769-775 | the test body gives heading 1 `Title`, paragraph `This is a paragraph.`, heading 2 `Subtitle`, paragraph `Another paragraph.` |
| Web.ColonAfterDigits | src/web.rs:127 | in a fingerprint the first `:` ends the leading number |
| Web.SplitAtColon | src/web.rs:127 | two fingerprint prefixes that are equal have equal numbers and equal remainders |
| Web.FingerprintInjective | src/web.rs:123-172 | two states with the same `{folder}:{message}:{has_email}` identifier have the same folder, message and presence of a message, so every change is seen |
| Web.Fingerprint | src/web.rs:123-127 | the `{folder}:{message}:{has_email}` identifier; Web.FingerprintInjective states that it determines its three parts |
| Web.EmitChanges | src/web.rs:111-138 | the polling stream emits exactly the polls that differ from the previously emitted one |
| Web.ChangesProperties | src/web.rs:130-135 | no event repeats the previous one, the first and the latest poll are always emitted, every event is a poll, there are no more events than polls |
| Web.Changes | src/web.rs:111-138 | the polls sent as events; Web.EmitChanges, Web.ChangesProperties and Web.ChangesRepeatLast state its properties |
| Web.ChangesRepeatLast | src/web.rs:130 | polling an unchanged state again emits nothing |
| Web.AttachmentsData | src/web.rs:182-190 | one record per attachment in order, with its filename, content type and size |
| Web.CurrentEmailJsonAgrees | src/web.rs:147-216 | the record's identifier is the same fingerprint the event stream compares; a message is present only in the views that show one; without a message every field is empty |
| Web.CurrentEmailJson | src/web.rs:147-216 | the JSON record of the current message; Web.CurrentEmailJsonAgrees states its properties |
| Ui.CharWidth | src/ui.rs:552 | a character takes at most two columns, a printable ASCII character exactly one |
| Ui.WidthAppend | src/ui.rs:541 | the display width of a concatenation is the sum of the widths |
| Ui.PrefixWidthGrows | src/ui.rs:554-563 | a longer prefix is at least as wide |
| Ui.PrefixWidthStep | src/ui.rs:554-563 | extending a prefix by one character adds that character's width |
| Ui.SpacesWidth | src/ui.rs:589-590 | `n` spaces are `n` columns wide |
| Ui.FitLength | src/ui.rs:550-563 | the number of leading characters kept is at most the length of the text |
| Ui.FitLengthFits | src/ui.rs:550-578 | the kept prefix fits the limit and one more character would not: the prefix is the longest that fits |
| Ui.FitLengthUnique | src/ui.rs:550-563 | any prefix that fits while the next character would not is the kept one |
| Ui.FitPrefix | src/ui.rs:550-578 | the loop over the characters with a running width stops at the longest prefix that fits |
| Ui.TruncateWithEllipsis | src/ui.rs:540-582 | the method returns the truncated text |
| Ui.TruncatedProperties | src/ui.rs:540-582 | text that fits is kept; the result never exceeds the column; otherwise it is a proper prefix followed by `...` when the column is wider than 3, or a bare prefix, and in both cases the longest one that leaves the room |
| Ui.Truncated | src/ui.rs:540-582 | the truncated text; Ui.TruncatedProperties, Ui.OverflowingCharDropped and Ui.TruncatedAtWideChar state its properties |
| Ui.OverflowingCharDropped | src/ui.rs:554-563 | a non-zero-width character that no longer fits before the ellipsis is dropped with everything after it |
| Ui.TruncatedAtWideChar | src/ui.rs:754-755 | `Test ` followed by three two-column characters, cut to 8 columns, gives `Test ...` |
| Ui.PadToWidthProperties | src/ui.rs:584-592 | the padded text starts with the text, continues with spaces only, and is exactly the target width unless the text is already wider, in which case it is unchanged in width |
| Ui.PadToWidth | src/ui.rs:584-592 | the padded text; Ui.PadToWidthProperties and Ui.ColumnWidthExact state its properties |
| Ui.ColumnWidthExact | src/ui.rs:660-673 | a value truncated and then padded to a column is exactly as wide as the column |
| Ui.ExtractEmailAddress | src/ui.rs:594-609 | the result is a prefix of the field, ending at the first ` <` whenever the field has one (an earlier `@` does not matter) and otherwise at the first `@`; it contains no ` <`, and no `@` when the field has no ` <` |
| Ui.ExtractName | src/ui.rs:596-598 | the name of a `Name <address>` sender is recovered exactly |
| Ui.ExtractLocalPart | src/ui.rs:599-603 | a plain `local@domain` address gives its local part |
| Ui.ExtractPlain | src/ui.rs:606-608 | a field with neither form is shown whole |
| Ui.ExtractAtBeforeName | src/ui.rs:596-598 | a field with an `@` before its ` <`, `a@b <c>`, is cut at the ` <`, giving `a@b` |
| Ui.FromWidth | src/ui.rs:624-626 | the sender column is between 15 and 25 columns, and 30% of the row when that lies in the range |
| Ui.SubjectWidthIsRemainder | src/ui.rs:638-643 | the subject gets what the fixed columns (2 + 10 + 3 + 8) and the sender leave, and nothing when they do not fit |
| Ui.SubjectWidth | src/ui.rs:638-643 | the width left for the subject; Ui.SubjectWidthIsRemainder states its properties |
| Ui.EmailRowColumns | src/ui.rs:645-688 | in every row the unread mark is one column, the sender and subject spans are exactly as wide as their columns and the icon two, so the columns line up |
| Ui.EmailRow | src/ui.rs:645-688 | one row of the message list; Ui.EmailRowColumns states its properties |
| Ui.BuildEmailList | src/ui.rs:611-691 | one row per message, in order, each built from that message |
| Ui.SentNameTestSubsumed | src/ui.rs:172-173 | the test for the name `Sent` adds nothing to the lower-cased `sent` test |
| Ui.IsSentFolder | src/ui.rs:172-173 | the sent-folder test; Ui.SentNameTestSubsumed states that its first half is implied by its second |
| Ui.TitleShowsPartialLoad | src/ui.rs:212-224 | the title ends with `/...)` exactly when the folder shown is not fully loaded |
| Ui.MessagesPaneTitle | src/ui.rs:159-224 | the title of the message pane; Ui.TitleShowsPartialLoad states its properties |
| Ui.RowTexts | src/ui.rs:502-519 | one row text per flat-list entry |
| Ui.RowTextsAppend | src/ui.rs:513-516 | the rows of two runs of entries are the rows of each |
| Ui.FlatFromDepth | src/input.rs:492-509 | every entry of a flattened folder is at depth at least one |
| Ui.StaticMatchesFlat | src/ui.rs:502-519 | the folder pane draws, row for row, the flat list that the cursor indexes: same order, same folders, indented by depth |
| Ui.BuildFolderListStatic | src/ui.rs:502-519 | the rows of the folder pane; Ui.StaticMatchesFlat and Ui.FolderPaneRows state its properties |
| Ui.StaticChildrenMatch | src/ui.rs:513-516 | the rows of the sorted subfolders are those of their flat entries |
| Ui.FolderPaneRows | src/ui.rs:502-519 | the pane has one row per flat-list entry, and row `i` shows the indented name of the folder at flat index `i` |
| Ui.RowTextsAt | src/ui.rs:505-510 | row `i` is the indented display name of entry `i` |

## Left out

- Drawing with ratatui, the terminal set-up and the run loop of `src/main.rs`, the tokio tasks and the mutex around the application: I/O and concurrency. A failed lock is not modelled.
- The axum router, the SSE framing, keep-alives and the 200 ms `sleep` between polls of `email_events`: the stream is modelled as the sequence of fingerprints the polls see, and `Web.EmitChanges` is the loop over them.
- The HTML and JavaScript page templates of `src/web.rs`: static text.
- `format_file_size`: it computes with `f64`; an attachment record keeps its size in bytes.
- `format_email_date`: it reads the local clock and time zone through chrono; the date text of each row is a parameter of `Ui.EmailRow` and `Ui.BuildEmailList`.
- `src/config.rs`, `src/theme.rs` and `src/test_fixtures.rs`: argument and TOML parsing, colour constants and test fixtures, none of which the core uses.
- The internals of the `mail_parser` crate and the `fs::read` calls: a message file is modelled as an abstract parse result (headers, bodies and attachment parts, or an error) stored in the filesystem tree.
- The unused `email_cache` of `EmailStore`.
- The filesystem is an immutable snapshot given to the scanner; no other process changes it during a scan.
- Folder identity by address (`std::ptr::eq` in `find_folder_path`) is replaced by the raw child-index path that each flat-list entry carries.
- `Folder` is a value, so there is no aliasing between folders; an in-place update of a nested folder is modelled as rebuilding the path to it.
- `get_folder_at_path`, `ensure_folder_at_path_loaded` and `get_folder_path_for_indices` are called but not defined in the available source; their bodies here are chosen to fit the call sites:
  - `get_folder_at_path` (App.SelectedFolder) is the strict lookup `FolderAtPath`: it fails on the first out-of-range index;
  - `ensure_folder_at_path_loaded` (Store.EnsureFolderAtPathLoaded) does nothing when the path does not reach a folder, and otherwise loads that folder with a cap of `visible_rows` messages, which does nothing when the folder is already loaded;
  - `get_folder_path_for_indices` (Store.Breadcrumb) joins "Mail" and the names along the path with ` > `, skipping an out-of-range index as `get_current_folder` does.
- Keys are small datatypes, not crossterm events. A key code is a character, Up, Down, Tab, BackTab, Enter, Backspace, Esc, PageUp, PageDown, or `OtherKey`, which stands for every code the handlers do not match (function keys, Left, Right, Home and so on). A key's modifiers are Shift, Control and Alt, plus a flag `other` for every further modifier (Super, Hyper, Meta). The handlers compare the whole modifier set: `NoModifiers` is all four false, Alt+… is Alt alone, and Shift+Enter in the attachment view is Shift alone.
- Lower-casing (`to_lowercase`, `eq_ignore_ascii_case`) is ASCII-only.
- Ui.CharWidth: a simplified fixed table of terminal widths (control and combining characters 0, the main wide and emoji blocks 2, everything else 1), not the full table of the `unicode-width` crate.
- Text is a sequence of Unicode scalar values; byte offsets of the Rust slices are character offsets here, which agree because every slice point comes from a search in the same text.
- `usize` arithmetic is unbounded: the overflow of `w * 30` in the column width and of the counters is not modelled; the subtractions that saturate in the source saturate here.
- The early return of `switch_pane` on an empty pane list (`src/app.rs:184-186`) is left out: App.AvailablePanes proves that every view lists at least one pane, so it cannot be taken.
- App.InitialModel, App.App.constructor: start with the folder cursor on the corrected row (App.FindInboxFolder, see Findings), the row of the chosen root child in the folder list. `App::new` stores the child's position among the root's sorted children instead, so when an earlier child has subfolders the program starts on, and then loads, a different folder than the model does; App.FindInboxFolderAsWrittenMisses gives such a tree.
- Web.MarkdownExample: states the test of `markdown_to_html` on the trimmed lines of its body and as blocks, not as `contains` checks on the HTML string.
- Web.EscapeHtmlHasNoMarkup: the test vectors of `escape_html` are not stated as literal equalities; the per-character characterisation and the single-character lemmas cover them.
- Ui.ExtractName: the test vectors of `extract_email_address` are covered by the general round-trip lemmas, not stated on the literal strings.

### Where the code and its description differ

The model follows the code:

- The INBOX-first sort compares the name with `"INBOX"` case-sensitively (`src/email.rs:246-248`); a folder named `Inbox` is sorted by name.
- Going from the folder pane back to the message list, and `next_view`, only restore a remembered selection; they do not select the first message (`src/app.rs:223-234`, `src/app.rs:247-258`).
- Toggling the content pane twice does not always return to the starting view and pane: the view is re-mapped to the default of its chain and the pane reset to that view's default (`src/app.rs:289-331`).
- Backspace in the attachment view sets the view to MessagesContent even when the content pane is hidden (`src/input.rs:390-395`).
- The comment above the column widths says the sender column is at least 20 columns; the code uses 15 (`src/ui.rs:624`).

## Findings

| source | as written | input that shows it | evidently intended | confidence | as-written member | corrected member |
|---|---|---|---|---|---|---|
| src/app.rs:412-427 (used at src/app.rs:371-377) | `find_inbox_folder` returns the position of the INBOX among the root's sorted children, and that number is used as a row of the flattened folder list, which also holds every nested folder | root with children `Archive` (holding `2023`) and `Inbox`: the result is 1, but row 1 of the folder list is `2023` | the folder-list row of the inbox, here 2 | not executed | App.FindInboxFolderAsWritten, App.FindInboxFolderAsWrittenMisses | App.FindInboxFolder, App.FindInboxFolderIsInboxRow (used by App.App.constructor) |
