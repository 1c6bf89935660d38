/**
 * MainWindow: the registry of open subwindows. `children` is the MDI area's
 * subwindow list in its order, `active` the child of the active subwindow.
 * Dialog answers, file-system results and canonicalFilePath are inputs.
 */
module MainWindows {
  import opened Wrappers
  import opened Strings
  import Sessions
  import opened MdiChildren
  import opened Registry
  import opened Menus

  /** The messages the status bar shows. */
  datatype Status = Welcome | FileOpened | FileSaved | Position(row: int, column: int)

  /** What the user would answer if one subwindow asks "save changes?". */
  datatype CloseAnswer = CloseAnswer(choice: Sessions.Choice, input: Sessions.SaveInput)

  class MainWindow {
    var children: seq<MdiChild>
    var active: MdiChild?
    var sequence: SequenceNumber
    var menus: MenuState
    var windowMenu: seq<MenuItem>
    var status: Status

    /** Each subwindow appears once, and the active child is one of them. */
    ghost predicate Valid()
      reads this
    {
      Distinct(children) && (active != null ==> active in children)
    }

    /** The current file of every subwindow, in list order. */
    function Files(): (fs: seq<Path>)
      reads this, children
      ensures |fs| == |children|
      ensures forall i :: 0 <= i < |children| ==> fs[i] == children[i].curFile
    {
      seq(|children|, i requires 0 <= i < |children| reads this, children => children[i].curFile)
    }

    constructor ()
      ensures Valid() && children == [] && active == null
      ensures fresh(sequence) && sequence.value == 1
      ensures menus == Enablement(None) && windowMenu == FixedItems
      ensures status == Welcome
    {
      children := [];
      active := null;
      sequence := new SequenceNumber();
      menus := Enablement(None);
      windowMenu := FixedItems;
      status := Welcome;
    }

    function ActiveMdiChild(): (c: MdiChild?)
      reads this
      requires Valid()
      ensures c != null ==> c in children
      ensures c == null <==> active == null
    {
      active
    }

    /** The first subwindow, in list order, whose file is canonical(fileName); null when none is. */
    method FindMdiChild(fileName: Path, canonical: Path -> Path) returns (w: MdiChild?)
      ensures match FindFirst(Files(), canonical(fileName))
              case None => w == null
              case Some(k) => w == children[k]
    {
      var target := canonical(fileName);
      var i := 0;
      while i < |children|
        invariant 0 <= i <= |children|
        invariant target !in Files()[..i]
      {
        if children[i].curFile == target {
          assert Files()[i] == target;
          return children[i];
        }
        assert Files()[..i + 1] == Files()[..i] + [Files()[i]];
        i := i + 1;
      }
      assert Files()[..i] == Files();
      return null;
    }

    /** A new, empty child added at the end of the subwindow list. */
    method CreateMdiChild() returns (child: MdiChild)
      requires Valid()
      modifies this`children
      ensures Valid() && fresh(child) && child.Snapshot() == Sessions.Initial()
      ensures children == old(children) + [child]
      ensures Files() == old(Files()) + [""]
    {
      child := new MdiChild();
      children := children + [child];
    }

    /** A new untitled document in a new subwindow, which becomes active. */
    method OnActionNew() returns (child: MdiChild)
      requires Valid()
      modifies this`children, this`active, sequence
      ensures Valid() && fresh(child)
      ensures children == old(children) + [child] && active == child
      ensures child.Snapshot() == Sessions.NewFile(Sessions.Initial(), old(sequence.value))
      ensures sequence.value == old(sequence.value) + 1
    {
      child := CreateMdiChild();
      child.NewFile(sequence);
      active := child;
    }

    /**
     * Open `fileName` (empty when the dialog was cancelled). A file already
     * shown is brought to the front instead of opened twice. Otherwise a new
     * subwindow loads it; if the file does not open, that subwindow is
     * closed again and the registry is as before.
     */
    method OnActionOpen(fileName: Path, opens: bool, text: string, canonical: Path -> Path)
      requires Valid()
      modifies this`children, this`active, this`status
      ensures Valid()
      ensures fileName == "" ==> children == old(children) && active == old(active) && status == old(status)
      ensures fileName != "" ==>
        match FindFirst(old(Files()), canonical(fileName))
        case Some(k) =>
          children == old(children) && active == old(children)[k] && status == old(status)
        case None =>
          if opens then
            |children| == |old(children)| + 1 && children[..|old(children)|] == old(children)
            && fresh(children[|old(children)|]) && active == children[|old(children)|]
            && active.Snapshot() == Sessions.LoadFile(Sessions.Initial(), fileName, true, text, canonical).session
            && status == FileOpened
            && FindFirst(Files(), canonical(fileName)) == Some(|old(children)|)
          else
            children == old(children) && active == old(active) && status == old(status)
    {
      if fileName == "" {
        return;
      }
      var existing := FindMdiChild(fileName, canonical);
      if existing != null {
        active := existing;
        return;
      }
      ghost var files := Files();
      var child := CreateMdiChild();
      var ok := child.LoadFile(fileName, opens, text, canonical);
      if ok {
        status := FileOpened;
        active := child;
        assert Files() == files + [canonical(fileName)];
        FindFirstAfterAppend(files, canonical(fileName));
      } else {
        // child->close(): the fresh document is unmodified, so it closes without asking.
        var accepted, written := child.CloseEvent(Sessions.Cancel, Sessions.SaveInput("", false), canonical);
        if accepted {
          children := children[..|children| - 1];
        }
      }
    }

    /** Save the active document; the status bar reports only a save that succeeded. */
    method OnActionSave(input: Sessions.SaveInput, canonical: Path -> Path) returns (written: Option<Sessions.Write>)
      requires Valid()
      modifies this`status, active
      ensures old(active) == null ==> status == old(status) && written == None
      ensures old(active) != null ==>
        var r := Sessions.Save(old(active.Snapshot()), input, canonical);
        active.Snapshot() == r.session && written == r.written
        && status == (if r.ok then FileSaved else old(status))
    {
      written := None;
      var child := ActiveMdiChild();
      if child != null {
        var ok;
        ok, written := child.Save(input, canonical);
        if ok {
          status := FileSaved;
        }
      }
    }

    /** Save the active document under a new name; the status bar reports only a save that succeeded. */
    method OnActionSaveAs(input: Sessions.SaveInput, canonical: Path -> Path) returns (written: Option<Sessions.Write>)
      requires Valid()
      modifies this`status, active
      ensures old(active) == null ==> status == old(status) && written == None
      ensures old(active) != null ==>
        var r := Sessions.SaveAs(old(active.Snapshot()), input, canonical);
        active.Snapshot() == r.session && written == r.written
        && status == (if r.ok then FileSaved else old(status))
    {
      written := None;
      var child := ActiveMdiChild();
      if child != null {
        var ok;
        ok, written := child.SaveAs(input, canonical);
        if ok {
          status := FileSaved;
        }
      }
    }

    /**
     * QMdiArea::closeAllSubWindows: every subwindow, in list order, receives
     * its close event with the user's answer for it; a refusal does not stop
     * the others. Closed subwindows leave the list; the ones that refused
     * stay, in order and unchanged.
     */
    method CloseAllSubWindows(answers: seq<CloseAnswer>, canonical: Path -> Path)
      returns (closed: seq<bool>, written: seq<Option<Sessions.Write>>)
      requires Valid() && |answers| == |children|
      modifies this`children, this`active, children
      ensures Valid()
      ensures |closed| == |old(children)| && |written| == |old(children)|
      ensures forall i :: 0 <= i < |old(children)| ==>
        var r := Sessions.MaybeSave(old(children[i].Snapshot()), answers[i].choice, answers[i].input, canonical);
        closed[i] == r.ok && written[i] == r.written
      ensures children == Kept(old(children), closed)
      ensures forall i :: 0 <= i < |old(children)| && !closed[i] ==>
        old(children)[i].Snapshot() == old(children[i].Snapshot())
      ensures active == (if old(active) in children then old(active) else null)
    {
      var all := children;
      closed, written := [], [];
      var i := 0;
      while i < |all|
        invariant 0 <= i <= |all| && |closed| == i && |written| == i
        invariant children == all && all == old(children) && Distinct(all) && active == old(active)
        invariant forall k :: 0 <= k < i ==>
          var r := Sessions.MaybeSave(old(all[k].Snapshot()), answers[k].choice, answers[k].input, canonical);
          closed[k] == r.ok && written[k] == r.written
        invariant forall k :: 0 <= k < i && !closed[k] ==> all[k].Snapshot() == old(all[k].Snapshot())
        invariant forall k :: i <= k < |all| ==> all[k].Snapshot() == old(all[k].Snapshot())
      {
        var accepted, w := all[i].CloseEvent(answers[i].choice, answers[i].input, canonical);
        closed := closed + [accepted];
        written := written + [w];
        i := i + 1;
      }
      KeptDistinct(all, closed);
      children := Kept(all, closed);
      if active !in children {
        active := null;
      }
    }

    /**
     * The main window closes only if, after every subwindow has been asked
     * to close, none remains — that is, only if every subwindow agreed.
     */
    method CloseEvent(answers: seq<CloseAnswer>, canonical: Path -> Path)
      returns (accepted: bool, closed: seq<bool>, written: seq<Option<Sessions.Write>>)
      requires Valid() && |answers| == |children|
      modifies this`children, this`active, children
      ensures Valid()
      ensures |closed| == |old(children)| && |written| == |old(children)|
      ensures forall i :: 0 <= i < |old(children)| ==>
        var r := Sessions.MaybeSave(old(children[i].Snapshot()), answers[i].choice, answers[i].input, canonical);
        closed[i] == r.ok && written[i] == r.written
      ensures children == Kept(old(children), closed)
      ensures forall i :: 0 <= i < |old(children)| && !closed[i] ==>
        old(children)[i].Snapshot() == old(children[i].Snapshot())
      ensures active == (if old(active) in children then old(active) else null)
      ensures accepted <==> children == []
      ensures accepted <==> forall i :: 0 <= i < |closed| ==> closed[i]
    {
      closed, written := CloseAllSubWindows(answers, canonical);
      accepted := |children| == 0;
    }

    /** "Close all" from the Window menu. */
    method OnActionCloseAll(answers: seq<CloseAnswer>, canonical: Path -> Path)
      returns (closed: seq<bool>, written: seq<Option<Sessions.Write>>)
      requires Valid() && |answers| == |children|
      modifies this`children, this`active, children
      ensures Valid()
      ensures |closed| == |old(children)| && |written| == |old(children)|
      ensures forall i :: 0 <= i < |old(children)| ==>
        var r := Sessions.MaybeSave(old(children[i].Snapshot()), answers[i].choice, answers[i].input, canonical);
        closed[i] == r.ok && written[i] == r.written
      ensures children == Kept(old(children), closed)
      ensures forall i :: 0 <= i < |old(children)| && !closed[i] ==>
        old(children)[i].Snapshot() == old(children[i].Snapshot())
      ensures active == (if old(active) in children then old(active) else null)
    {
      closed, written := CloseAllSubWindows(answers, canonical);
    }

    /** Make subwindow w active; a null w is ignored. */
    method SetActiveSubWindow(w: MdiChild?)
      requires Valid() && (w == null || w in children)
      modifies this`active
      ensures Valid()
      ensures active == (if w == null then old(active) else w)
    {
      if w == null {
        return;
      }
      active := w;
    }

    /** `view` is what Qt reports about the active child's editor; it is ignored when there is none. */
    method UpdateMenus(view: EditView)
      requires Valid()
      modifies this`menus
      ensures menus == Enablement(if active == null then None else Some(view))
    {
      var child := ActiveMdiChild();
      menus := Enablement(if child == null then None else Some(view));
    }

    /**
     * Rebuild the Window menu: the fixed actions, then one checkable entry
     * per subwindow labelled by its position and short name, checked only
     * for the active one. The list separator shows only when there are subwindows.
     */
    method UpdateWindowMenu()
      requires Valid()
      modifies this`windowMenu, this`menus
      ensures menus == old(menus).(separator := |children| > 0)
      ensures |windowMenu| == |FixedItems| + |children| && windowMenu[..|FixedItems|] == FixedItems
      ensures forall i :: 0 <= i < |children| ==>
        windowMenu[|FixedItems| + i]
        == WindowEntry(WindowMenuLabel(i, children[i].UserFriendlyCurrentFile()), children[i] == active, i)
    {
      windowMenu := FixedItems;
      menus := menus.(separator := |children| > 0);
      ghost var entries: seq<MenuItem> := [];
      var i := 0;
      while i < |children|
        invariant 0 <= i <= |children| && |entries| == i
        invariant menus == old(menus).(separator := |children| > 0)
        invariant windowMenu == FixedItems + entries
        invariant forall k :: 0 <= k < i ==>
          entries[k] == WindowEntry(WindowMenuLabel(k, children[k].UserFriendlyCurrentFile()), children[k] == active, k)
      {
        var child := children[i];
        var text := WindowMenuLabel(i, child.UserFriendlyCurrentFile());
        var entry := WindowEntry(text, child == ActiveMdiChild(), i);
        windowMenu := windowMenu + [entry];
        entries := entries + [entry];
        i := i + 1;
      }
    }

    /** Report the cursor of the active editor; Qt counts blocks and columns from 0, the status bar from 1. */
    method ShowTextRowAndCol(blockNumber: nat, columnNumber: nat)
      requires Valid()
      modifies this`status
      ensures active != null ==> status == Position(blockNumber + 1, columnNumber + 1)
      ensures active == null ==> status == old(status)
    {
      if ActiveMdiChild() != null {
        status := Position(blockNumber + 1, columnNumber + 1);
      }
    }
  }

  /** Two "New" commands in a fresh main window give the documents 1 and 2, never the same name. */
  method TwoUntitledDocuments() returns (first: Path, second: Path)
    ensures first == Sessions.UntitledName(1) && second == Sessions.UntitledName(2)
    ensures first != second
  {
    var w := new MainWindow();
    var a := w.OnActionNew();
    var b := w.OnActionNew();
    first, second := a.curFile, b.curFile;
    Sessions.UntitledNamesDistinct(1, 2);
  }

  /**
   * Opening the same file twice: the second open brings the subwindow the
   * first one produced (or found) to the front and adds nothing.
   */
  method OpenSameFileTwice(w: MainWindow, fileName: Path, opens: bool, text: string, canonical: Path -> Path)
    requires w.Valid() && fileName != ""
    modifies w`children, w`active, w`status
    ensures w.Valid()
    ensures |w.children| <= |old(w.children)| + 1
    ensures (opens || canonical(fileName) in old(w.Files())) ==>
      w.active != null && w.active.curFile == canonical(fileName)
  {
    w.OnActionOpen(fileName, opens, text, canonical);
    w.OnActionOpen(fileName, opens, text, canonical);
  }
}
