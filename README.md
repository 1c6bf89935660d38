# myMdi document sessions in Dafny

A model of the document-session logic of myMdi, a Qt multi-document text
editor. There are two parts:

- `MdiChild` is one editor subwindow. It tracks its current file (`curFile`) and whether it was ever saved (`isUntitled`). It also tracks the document's modified flag, the window's `*` marker, its title and its text. It can be named as a new untitled document, loaded, saved, saved under a new name, and asked to close. When it is asked to close while modified, it first asks the user "save changes?" (Yes / No / Cancel).
- `MainWindow` is the registry of subwindows. It keeps them in list order, with one of them active. It opens a file, or brings forward the subwindow already showing it. It routes Save and Save As to the active subwindow. It closes only when every subwindow has agreed to close. It also derives which menu actions are enabled, and the entries of the Window menu.

Everything the program gets from the user, the operating system or Qt is an
input to the model:

- the button pressed in the message box;
- the name returned by a file dialog (empty when it was cancelled);
- whether a file opened for reading or writing;
- the text read from a file;
- the editor's selection and undo/redo availability;
- the cursor's block and column;
- `QFileInfo::canonicalFilePath`, given as an arbitrary function `canonical`.

A write to disk is returned as a `Write(path, text)` value.

Files:
- `wrappers.dfy`: the `Option` type.
- `strings.dfy`: decimal rendering of numbers, its inverse, and `QFileInfo::fileName`.
- `sessions.dfy`: one subwindow's state as a value, with each operation as a function. This file holds the close-confirmation rule and the properties proved about it.
- `mdichild.dfy`: the `MdiChild` class, plus the shared untitled counter. Each method updates the fields in place, and its postcondition is the matching function of `sessions.dfy` applied to the old state.
- `registry.dfy`: the search for the first subwindow showing a file, and which subwindows survive a round of close requests.
- `menus.dfy`: the enablement of actions and the labels of the Window menu.
- `mainwindow.dfy`: the `MainWindow` class.

Three behaviours of the program are worth stating plainly:
- "Close all" asks every subwindow. The main window calls `QMdiArea::closeAllSubWindows`, which sends a close event to every subwindow, one after the other; a Cancel in one subwindow does not stop the others. Afterwards the main window only checks whether any subwindow is left.
- Saving an untitled document opens the Save As dialog. An empty answer from the dialog makes the save fail, and nothing changes.
- An untitled document is still named: curFile holds "未命名文档N.txt" and `isUntitled` is true. A loaded or saved document is named by the canonical form of the path it was given.

## Model

| member | source | states |
|---|---|---|
| `Strings.NatToString` | myMdi/mdichild.cpp:114 | the counter is rendered as a non-empty string of decimal digits with no leading zero |
| `Strings.ParseNatToString` | myMdi/mdichild.cpp:114 | reading the rendered digits back gives the number: the rendering loses nothing |
| `Strings.NatToStringInjective` | myMdi/mdichild.cpp:114 | different counter values are rendered differently |
| `Strings.FileName` | myMdi/mdichild.cpp:202 | `QFileInfo::fileName`: the short name is never longer than the path; `Strings.FileNameShape` proves it is the longest suffix without '/' |
| `Strings.FileNameShape` | myMdi/mdichild.cpp:199-203 | the short name is the longest suffix of the path without '/'; a path without '/' is its own short name |
| `Sessions.Initial` | myMdi/mdichild.cpp:98-104 | a new child is untitled, empty and unmodified |
| `Sessions.UntitledName` | myMdi/mdichild.cpp:114 | the untitled name holds no '/', and its middle part is exactly the counter's digits |
| `Sessions.UntitledNamesDistinct` | myMdi/mdichild.cpp:110-114 | two different counter values never give the same untitled name: names are never reused |
| `Sessions.UserFriendlyCurrentFile` | myMdi/mdichild.cpp:199-203 | the shown name is the short name of curFile, never longer than it; its shape is that of `Strings.FileNameShape` |
| `Sessions.NewFile` | myMdi/mdichild.cpp:107-119 | the session is untitled and named after the counter value; its short name is its whole name; the title carries "[*]" and the application name; the text and the flags are kept |
| `Sessions.SetCurrentFile` | myMdi/mdichild.cpp:43-55 | curFile is the canonical form of the name; the session is titled and clean; the title is the short name plus "[*]"; the text is kept |
| `Sessions.SaveFile` | myMdi/mdichild.cpp:178-196 | it succeeds exactly when the file opens for writing; on success the text is written to that name and setCurrentFile follows; on failure nothing changes and nothing is written |
| `Sessions.SaveAs` | myMdi/mdichild.cpp:164-175 | an empty dialog answer fails with nothing changed; success needs a name that opens, writes the text there, and leaves the session exactly as setCurrentFile of that name makes it: titled, clean, named after it, titled by its short name, with its text kept |
| `Sessions.Save` | myMdi/mdichild.cpp:149-161 | an untitled session behaves exactly as Save As; a titled one writes its text back to curFile and succeeds iff that file opens; success leaves it titled and clean; failure changes and writes nothing |
| `Sessions.MaybeSave` | myMdi/mdichild.cpp:13-40 | unmodified: true at once, whatever the answer; modified: Yes gives save()'s result, No gives true with nothing written, Cancel gives false; a false result leaves the session unchanged; only Yes can write |
| `Sessions.LoadFile` | myMdi/mdichild.cpp:122-146 | it succeeds exactly when the file opens; on success the text is the file's and the rest is setCurrentFile of the name: titled, clean, named after the file, with nothing written; on failure nothing changes |
| `Sessions.DocumentWasModified` | myMdi/mdichild.cpp:206-211 | the window's '*' flag takes the document's modified flag, and nothing else changes |
| `Sessions.Edit` | myMdi/mdichild.cpp:206-211 | after an edit (contentsChanged runs documentWasModified) the document and window are both marked modified, and the name and title are kept |
| `Sessions.SaveKeepsName` | myMdi/mdichild.cpp:149-161 | when canonicalFilePath is idempotent, a plain Save of a session that has been loaded or saved never renames it |
| `Sessions.EditedSessionAsks` | myMdi/mdichild.cpp:13-40 | after an edit, Cancel refuses the close and keeps the edit; No accepts it and writes nothing |
| `Sessions.SavedSessionClosesSilently` | myMdi/mdichild.cpp:58-70 | after a successful save, closing is accepted whatever the answer, and nothing is written |
| `Sessions.SaveAsNewDocument` | myMdi/mdichild.cpp:164-175 | new document, "hello" typed, Save As "/tmp/a.txt": the session is clean and titled, named "/tmp/a.txt" and shown as "a.txt", and "hello" was written there |
| `MdiChildren.SequenceNumber.constructor` | myMdi/mdichild.cpp:110 | the shared counter starts at 1 |
| `MdiChildren.SequenceNumber.Next` | myMdi/mdichild.cpp:114 | post-increment: the current value is returned and the counter goes up by one |
| `MdiChildren.MdiChild.constructor` | myMdi/mdichild.cpp:98-104 | the new child's state is `Sessions.Initial` |
| `MdiChildren.MdiChild.CurrentFile` | myMdi/mdichild.h:30 | returns curFile |
| `MdiChildren.MdiChild.UserFriendlyCurrentFile` | myMdi/mdichild.cpp:199-203 | returns the short name of curFile |
| `MdiChildren.MdiChild.NewFile` | myMdi/mdichild.cpp:107-119 | the new state is `Sessions.NewFile` at the counter's old value, and the counter goes up by one |
| `MdiChildren.MdiChild.SetCurrentFile` | myMdi/mdichild.cpp:43-55 | the new state is `Sessions.SetCurrentFile` of the old state |
| `MdiChildren.MdiChild.LoadFile` | myMdi/mdichild.cpp:122-146 | the result and new state are those of `Sessions.LoadFile` on the old state |
| `MdiChildren.MdiChild.SaveFile` | myMdi/mdichild.cpp:178-196 | the result, new state and written file are those of `Sessions.SaveFile` |
| `MdiChildren.MdiChild.SaveAs` | myMdi/mdichild.cpp:164-175 | the result, new state and written file are those of `Sessions.SaveAs` |
| `MdiChildren.MdiChild.Save` | myMdi/mdichild.cpp:149-161 | the result, new state and written file are those of `Sessions.Save` |
| `MdiChildren.MdiChild.MaybeSave` | myMdi/mdichild.cpp:13-40 | the result, new state and written file are those of `Sessions.MaybeSave` |
| `MdiChildren.MdiChild.CloseEvent` | myMdi/mdichild.cpp:58-70 | the close is accepted iff maybeSave returns true; a refused close leaves the child's state exactly as it was |
| `MdiChildren.MdiChild.DocumentWasModified` | myMdi/mdichild.cpp:206-211 | the new state is `Sessions.DocumentWasModified` of the old one |
| `MdiChildren.MdiChild.Edit` | myMdi/mdichild.cpp:206-211 | the new state is `Sessions.Edit` of the old one |
| `Registry.FindFirst` | myMdi/mainwindow.cpp:25-36 | None iff no file in the list equals the target; otherwise the position of the first file equal to it |
| `Registry.FindFirstAfterAppend` | myMdi/mainwindow.cpp:171-176 | a file opened after a failed search is found by the next search, at the position where it was appended |
| `Registry.FindFirstIgnoresOthers` | myMdi/mainwindow.cpp:25-36 | appending a subwindow for another file does not change where the target is found |
| `Registry.Kept` | myMdi/mainwindow.cpp:101-103 | no subwindow is left exactly when every subwindow accepted its close |
| `Registry.KeptSubset` | myMdi/mainwindow.cpp:101 | every subwindow left after the closes was in the list before |
| `Registry.KeptRefused` | myMdi/mainwindow.cpp:101 | a subwindow that refused its close is still in the list |
| `Registry.KeptDropsClosed` | myMdi/mainwindow.cpp:101 | a subwindow that accepted its close is no longer in the list |
| `Registry.KeptDistinct` | myMdi/mainwindow.cpp:101 | the list after the closes still holds each subwindow once |
| `Menus.Enablement` | myMdi/mainwindow.cpp:271-294 | Save, Save As, Paste, Close, Close All, Tile, Cascade, Next, Previous and the separator are on iff there is an active child; Cut and Copy iff it also has a selection; Undo and Redo iff it also has undo or redo available; with no active child everything is off |
| `Menus.WindowMenuLabel` | myMdi/mainwindow.cpp:346-353 | "&<i+1> <name>" for the first nine positions and "<i+1> <name>" after: the label starts with '&' exactly when i < 9 and is longer than the name; `Menus.WindowMenuLabelShape` gives the rest |
| `Menus.WindowMenuLabelShape` | myMdi/mainwindow.cpp:346-353 | the label starts with '&' exactly for the first nine entries, ends with a space and the window's short name, and its number reads back as the position plus one |
| `Menus.WindowMenuLabelsDistinct` | myMdi/mainwindow.cpp:341-353 | entries at different positions never have the same label, whatever the window names |
| `MainWindows.MainWindow.constructor` | myMdi/mainwindow.cpp:116-139 | there are no subwindows and no active one, all actions are off, the Window menu holds only its fixed actions, the status shows the welcome message, and the counter is at 1 |
| `MainWindows.MainWindow.ActiveMdiChild` | myMdi/mainwindow.cpp:15-22 | the active child, if any, is one of the subwindows |
| `MainWindows.MainWindow.FindMdiChild` | myMdi/mainwindow.cpp:25-36 | returns the first subwindow, in list order, whose file is canonical(fileName), and null when there is none |
| `MainWindows.MainWindow.CreateMdiChild` | myMdi/mainwindow.cpp:297-312 | a fresh child in its initial state is appended to the list; the files already listed are unchanged |
| `MainWindows.MainWindow.OnActionNew` | myMdi/mainwindow.cpp:145-153 | a fresh untitled child is appended and made active; it is named after the counter's old value, and the counter goes up by one |
| `MainWindows.MainWindow.OnActionOpen` | myMdi/mainwindow.cpp:156-182 | an empty name does nothing; a file already shown activates its first subwindow and adds none; otherwise a load that succeeds appends one active, clean subwindow that the next search finds; a load that fails leaves the list, the active child and the status as they were |
| `MainWindows.MainWindow.OnActionSave` | myMdi/mainwindow.cpp:185-189 | with no active child, nothing happens; otherwise the active child does `Sessions.Save`, and the success message appears only if it returned true |
| `MainWindows.MainWindow.OnActionSaveAs` | myMdi/mainwindow.cpp:192-196 | with no active child, nothing happens; otherwise the active child does `Sessions.SaveAs`, and the success message appears only if it returned true |
| `MainWindows.MainWindow.CloseAllSubWindows` | myMdi/mainwindow.cpp:101 | every subwindow answers its own close request, as maybeSave decides; exactly the ones that refused remain, in order and with their state unchanged; the active child stays active only if it remains |
| `MainWindows.MainWindow.CloseEvent` | myMdi/mainwindow.cpp:98-113 | every subwindow answers as maybeSave decides; the ones that refused remain, in order and unchanged; the active child stays active only if it remains; the main window closes iff no subwindow remains, which is iff every subwindow accepted its close |
| `MainWindows.MainWindow.OnActionCloseAll` | myMdi/mainwindow.cpp:245 | runs close-all: each subwindow answers as maybeSave decides; the ones that refused remain, in order and unchanged; the active child stays active only if it remains |
| `MainWindows.MainWindow.SetActiveSubWindow` | myMdi/mainwindow.cpp:315-321 | a null window is ignored; otherwise the given subwindow becomes active |
| `MainWindows.MainWindow.UpdateMenus` | myMdi/mainwindow.cpp:271-294 | the actions take the enablement of `Menus.Enablement` for the active child, or for no child |
| `MainWindows.MainWindow.UpdateWindowMenu` | myMdi/mainwindow.cpp:324-365 | the menu is the fixed actions followed by exactly one entry per subwindow, in list order; entry i is labelled by position i and the short name, and is checked iff its child is active; the list separator shows iff there are subwindows |
| `MainWindows.MainWindow.ShowTextRowAndCol` | myMdi/mainwindow.cpp:368-378 | with an active child, the status shows the 0-based block and column numbers plus one; with none, the status is unchanged |
| `MainWindows.TwoUntitledDocuments` | myMdi/mainwindow.cpp:145-153 | two New commands in a fresh window name the documents with 1 and 2, and the two names differ |
| `MainWindows.OpenSameFileTwice` | myMdi/mainwindow.cpp:156-182 | opening one file twice adds at most one subwindow; if the file opens or is already shown, the active child afterwards is the one showing it |

## Left out

- The file system is not modelled as state. A save returns what it wrote, but a later load does not see it: the load's success and text are inputs.
- `canonical` is an arbitrary function of the path. Qt's behaviour of returning an empty path for a missing file is not modelled.
- `sequenceNumber` is a C++ `int`. Its overflow after 2^31 - 1 new documents is not modelled; the counter is unbounded. The same holds for `blockNumber() + 1` and `columnNumber() + 1`.
- The undo stack is Qt's. Undoing back to the saved text clears Qt's modified flag, and that is not modelled: an edit always marks the document modified.
- Which remaining subwindow Qt activates after the active one closes is not modelled. The active child becomes null instead.
- `currentSubWindow()` after close-all is modelled as "some subwindow remains". The main window's `writeSettings` before accepting is left out.
- Signal wiring is left out. After an activation, `UpdateMenus` is called by the client rather than by `subWindowActivated`. The `copyAvailable`, `undoAvailable`, `redoAvailable` and `cursorPositionChanged` connections of `createMdiChild` (myMdi/mainwindow.cpp:304-310) are left out too; their effects are the inputs of `UpdateMenus` and `ShowTextRowAndCol`.
- The `QSignalMapper` from Window-menu entries to subwindows is left out. Each entry records the position of its subwindow instead.
- `contextMenuEvent` (myMdi/mdichild.cpp:73-96) is left out. It builds a menu whose enablement repeats that of `updateMenus`.
- `on_actionClose_triggered` (closeActiveSubWindow) is left out, as are the Undo, Redo, Cut, Copy, Paste, Tile, Cascade, Next, Previous, Exit, About and About Qt handlers. Each one hands the work to a Qt call.
- `readSettings`, `writeSettings` and `initWindow` are left out: they hold window geometry, status tips and a link label. The startup in myMdi/main.cpp and the generated widget code in ui_mainwindow.h are left out too.
- Message-box and status texts are reduced to the `Choice` and `Status` datatypes, and the 2-second status timeout is dropped. The window title is kept as a string, but Qt's `[*]` substitution is not rendered.
- The wait cursor set around reads and writes is left out, as is text encoding.
