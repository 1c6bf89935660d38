/**
 * MdiChild: one editor subwindow. Its fields are updated in place by the
 * methods below, each of which calls the others exactly as the original
 * does (save calls saveAs or saveFile, saveFile and loadFile end in
 * setCurrentFile, closeEvent asks maybeSave). Every method states its new
 * state as the matching step of module Sessions applied to the old state.
 */
module MdiChildren {
  import opened Wrappers
  import opened Strings
  import Sessions

  /**
   * The process-wide counter behind untitled names (a function-local static
   * in newFile). It starts at 1 and is post-incremented on every use.
   */
  class SequenceNumber {
    var value: nat

    constructor ()
      ensures value == 1
    {
      value := 1;
    }

    method Next() returns (n: nat)
      modifies this
      ensures n == old(value) && value == old(value) + 1
    {
      n := value;
      value := value + 1;
    }
  }

  class MdiChild {
    var curFile: Path
    var isUntitled: bool
    var modified: bool        // document()->isModified()
    var windowModified: bool  // isWindowModified(): the '*' in the title
    var title: string
    var content: string       // toPlainText()

    function Snapshot(): Sessions.Session
      reads this
    {
      Sessions.Session(curFile, isUntitled, modified, windowModified, title, content)
    }

    constructor ()
      ensures Snapshot() == Sessions.Initial()
    {
      curFile, isUntitled, modified, windowModified, title, content := "", true, false, false, "", "";
    }

    function CurrentFile(): (r: Path)
      reads this
      ensures r == Snapshot().curFile
    {
      curFile
    }

    function UserFriendlyCurrentFile(): (r: Path)
      reads this
      ensures r == Sessions.UserFriendlyCurrentFile(Snapshot())
    {
      FileName(curFile)
    }

    method NewFile(sequence: SequenceNumber)
      modifies this, sequence
      ensures Snapshot() == Sessions.NewFile(old(Snapshot()), old(sequence.value))
      ensures sequence.value == old(sequence.value) + 1
    {
      var n := sequence.Next();
      isUntitled := true;
      curFile := Sessions.UntitledName(n);
      title := curFile + Sessions.ModifiedMarker + Sessions.AppTitleSuffix;
    }

    method SetCurrentFile(fileName: Path, canonical: Path -> Path)
      modifies this
      ensures Snapshot() == Sessions.SetCurrentFile(old(Snapshot()), fileName, canonical)
    {
      curFile := canonical(fileName);
      isUntitled := false;
      modified := false;
      windowModified := false;
      title := UserFriendlyCurrentFile() + Sessions.ModifiedMarker;
    }

    /** `opens` says whether the file could be opened for reading; `text` is what it holds. */
    method LoadFile(fileName: Path, opens: bool, text: string, canonical: Path -> Path) returns (ok: bool)
      modifies this
      ensures var r := Sessions.LoadFile(old(Snapshot()), fileName, opens, text, canonical);
              ok == r.ok && Snapshot() == r.session
    {
      if !opens {
        return false;
      }
      content := text;
      SetCurrentFile(fileName, canonical);
      ok := true;
    }

    /** `opens` says whether fileName could be opened for writing; `written` is the file produced. */
    method SaveFile(fileName: Path, opens: bool, canonical: Path -> Path) returns (ok: bool, written: Option<Sessions.Write>)
      modifies this
      ensures var r := Sessions.SaveFile(old(Snapshot()), fileName, opens, canonical);
              ok == r.ok && Snapshot() == r.session && written == r.written
    {
      if !opens {
        return false, None;
      }
      written := Some(Sessions.Write(fileName, content));
      SetCurrentFile(fileName, canonical);
      ok := true;
    }

    method SaveAs(input: Sessions.SaveInput, canonical: Path -> Path) returns (ok: bool, written: Option<Sessions.Write>)
      modifies this
      ensures var r := Sessions.SaveAs(old(Snapshot()), input, canonical);
              ok == r.ok && Snapshot() == r.session && written == r.written
    {
      if input.chosenName == "" {
        return false, None;
      }
      ok, written := SaveFile(input.chosenName, input.opensForWrite, canonical);
    }

    method Save(input: Sessions.SaveInput, canonical: Path -> Path) returns (ok: bool, written: Option<Sessions.Write>)
      modifies this
      ensures var r := Sessions.Save(old(Snapshot()), input, canonical);
              ok == r.ok && Snapshot() == r.session && written == r.written
    {
      if isUntitled {
        ok, written := SaveAs(input, canonical);
      } else {
        ok, written := SaveFile(curFile, input.opensForWrite, canonical);
      }
    }

    /** `choice` is the button the user would press; it is only asked for when the document is modified. */
    method MaybeSave(choice: Sessions.Choice, input: Sessions.SaveInput, canonical: Path -> Path)
      returns (ok: bool, written: Option<Sessions.Write>)
      modifies this
      ensures var r := Sessions.MaybeSave(old(Snapshot()), choice, input, canonical);
              ok == r.ok && Snapshot() == r.session && written == r.written
    {
      if modified {
        match choice
        case Yes =>
          ok, written := Save(input, canonical);
          return;
        case Cancel =>
          return false, None;
        case No =>
      }
      ok, written := true, None;
    }

    /** The window closes (the event is accepted) exactly when maybeSave says so. */
    method CloseEvent(choice: Sessions.Choice, input: Sessions.SaveInput, canonical: Path -> Path)
      returns (accepted: bool, written: Option<Sessions.Write>)
      modifies this
      ensures var r := Sessions.MaybeSave(old(Snapshot()), choice, input, canonical);
              accepted == r.ok && Snapshot() == r.session && written == r.written
      ensures !accepted ==> Snapshot() == old(Snapshot())
    {
      accepted, written := MaybeSave(choice, input, canonical);
    }

    method DocumentWasModified()
      modifies this
      ensures Snapshot() == Sessions.DocumentWasModified(old(Snapshot()))
    {
      windowModified := modified;
    }

    /**
     * The user changes the text. QTextEdit marks the document modified and
     * emits contentsChanged, which runs documentWasModified.
     */
    method Edit(text: string)
      modifies this
      ensures Snapshot() == Sessions.Edit(old(Snapshot()), text)
    {
      content := text;
      modified := true;
      DocumentWasModified();
    }
  }
}
