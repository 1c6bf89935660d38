/**
 * The document session behind one MdiChild, as a value: what the child's
 * fields hold and how each of its operations changes them. The class in
 * module MdiChildren performs these steps in place; this module states and
 * proves what they promise.
 *
 * Everything the operations ask of the user or the operating system is an
 * input: the button chosen in the "save changes?" box, the name returned by
 * the Save As dialog (empty when the dialog was cancelled), whether a file
 * could be opened, the text read from it, and canonicalFilePath as a
 * function `canonical`.
 */
module Sessions {
  import opened Wrappers
  import opened Strings

  /** The three buttons of the "save changes?" message box. */
  datatype Choice = Yes | No | Cancel

  /** What saving needs from outside: the Save As dialog's answer and whether the target opens for writing. */
  datatype SaveInput = SaveInput(chosenName: Path, opensForWrite: bool)

  /** A file written by a save: where (the name given to QFile) and the text. */
  datatype Write = Write(path: Path, text: string)

  /**
   * The state of one child: curFile and isUntitled (mdichild.h), the
   * document's modified flag, the window-modified flag that shows the '*'
   * in the title, the window title, and the plain text of the editor.
   */
  datatype Session = Session(
    curFile: Path,
    isUntitled: bool,
    modified: bool,
    windowModified: bool,
    title: string,
    content: string)

  /** The result of an operation that may fail: success, the new session, and the file it wrote, if any. */
  datatype Outcome = Outcome(ok: bool, session: Session, written: Option<Write>)

  const UntitledPrefix: string := "未命名文档"
  const UntitledSuffix: string := ".txt"
  const ModifiedMarker: string := "[*]"
  const AppTitleSuffix: string := " - 多文档编辑器"

  /** A freshly constructed child: untitled, empty, unmodified, not yet named. */
  function Initial(): (s: Session)
    ensures s.isUntitled && !s.modified && !s.windowModified && s.content == ""
  {
    Session("", true, false, false, "", "")
  }

  predicate Clean(s: Session) {
    !s.modified && !s.windowModified
  }

  /** The n-th untitled name, "未命名文档n.txt". */
  function UntitledName(n: nat): (r: Path)
    ensures '/' !in r
    ensures |r| == |UntitledPrefix| + |NatToString(n)| + |UntitledSuffix|
    ensures r[|UntitledPrefix|..|r| - |UntitledSuffix|] == NatToString(n)
  {
    var digits := NatToString(n);
    var r := UntitledPrefix + digits + UntitledSuffix;
    assert forall i :: 0 <= i < |r| ==> r[i] != '/' by {
      forall i | 0 <= i < |r| ensures r[i] != '/' {
        if |UntitledPrefix| <= i < |UntitledPrefix| + |digits| {
          assert r[i] == digits[i - |UntitledPrefix|];
        }
      }
    }
    assert r[|UntitledPrefix|..|r| - |UntitledSuffix|] == digits;
    r
  }

  /** Untitled names are never reused: different counter values give different names. */
  lemma UntitledNamesDistinct(m: nat, n: nat)
    requires m != n
    ensures UntitledName(m) != UntitledName(n)
  {
    if UntitledName(m) == UntitledName(n) {
      NatToStringInjective(m, n);
      assert false;
    }
  }

  /** The name shown to the user: the last component of curFile. */
  function UserFriendlyCurrentFile(s: Session): (r: Path)
    ensures |r| <= |s.curFile|
  {
    FileName(s.curFile)
  }

  /**
   * newFile: untitled, named after the current value n of the shared counter,
   * title "<name>[*] - 多文档编辑器". Text and flags are left as they were.
   */
  function NewFile(s: Session, n: nat): (r: Session)
    ensures r.isUntitled && r.curFile == UntitledName(n)
    ensures UserFriendlyCurrentFile(r) == r.curFile
    ensures r.title == r.curFile + ModifiedMarker + AppTitleSuffix
    ensures r.content == s.content && r.modified == s.modified && r.windowModified == s.windowModified
  {
    FileNameShape(UntitledName(n));
    s.(isUntitled := true,
       curFile := UntitledName(n),
       title := UntitledName(n) + ModifiedMarker + AppTitleSuffix)
  }

  /**
   * setCurrentFile: the session now names the canonical form of fileName,
   * counts as saved, and is clean; the title is the short name plus "[*]".
   */
  function SetCurrentFile(s: Session, fileName: Path, canonical: Path -> Path): (r: Session)
    ensures r.curFile == canonical(fileName) && !r.isUntitled && Clean(r)
    ensures r.title == UserFriendlyCurrentFile(r) + ModifiedMarker
    ensures r.content == s.content
  {
    var cur := canonical(fileName);
    Session(cur, false, false, false, FileName(cur) + ModifiedMarker, s.content)
  }

  /**
   * saveFile: when fileName opens for writing, the text is written to it and
   * the session names it and is clean; otherwise nothing changes and nothing
   * is written.
   */
  function SaveFile(s: Session, fileName: Path, opens: bool, canonical: Path -> Path): (r: Outcome)
    ensures r.ok == opens
    ensures r.ok ==> r.written == Some(Write(fileName, s.content))
                     && r.session == SetCurrentFile(s, fileName, canonical)
    ensures !r.ok ==> r.written == None && r.session == s
  {
    if !opens then Outcome(false, s, None)
    else Outcome(true, SetCurrentFile(s, fileName, canonical), Some(Write(fileName, s.content)))
  }

  /**
   * saveAs: an empty name from the dialog means the user backed out — false,
   * nothing changes; otherwise the outcome of saving under the chosen name.
   */
  function SaveAs(s: Session, input: SaveInput, canonical: Path -> Path): (r: Outcome)
    ensures input.chosenName == "" ==> !r.ok && r.session == s && r.written == None
    ensures r.ok <==> input.chosenName != "" && input.opensForWrite
    ensures r.ok ==> r.written == Some(Write(input.chosenName, s.content))
                     && r.session.curFile == canonical(input.chosenName)
                     && !r.session.isUntitled && Clean(r.session)
    ensures r.ok ==> r.session == SetCurrentFile(s, input.chosenName, canonical)
    ensures !r.ok ==> r.session == s && r.written == None
  {
    if input.chosenName == "" then Outcome(false, s, None)
    else SaveFile(s, input.chosenName, input.opensForWrite, canonical)
  }

  /**
   * save: an untitled session goes through Save As (and so behaves exactly
   * like it); a titled one is written back to curFile, without a dialog.
   */
  function Save(s: Session, input: SaveInput, canonical: Path -> Path): (r: Outcome)
    ensures s.isUntitled ==> r == SaveAs(s, input, canonical)
    ensures !s.isUntitled ==> r.ok == input.opensForWrite
    ensures !s.isUntitled && r.ok ==> r.written == Some(Write(s.curFile, s.content))
                                      && r.session.curFile == canonical(s.curFile)
    ensures r.ok ==> !r.session.isUntitled && Clean(r.session) && r.session.content == s.content
    ensures !r.ok ==> r.session == s && r.written == None
  {
    if s.isUntitled then SaveAs(s, input, canonical)
    else SaveFile(s, s.curFile, input.opensForWrite, canonical)
  }

  /**
   * maybeSave: an unmodified session may close at once, whatever the user
   * would have answered. A modified one closes after a successful save (Yes)
   * or discarding (No, nothing written); Cancel keeps it open. Whenever the
   * answer is "do not close", the session is left exactly as it was.
   */
  function MaybeSave(s: Session, choice: Choice, input: SaveInput, canonical: Path -> Path): (r: Outcome)
    ensures !s.modified ==> r == Outcome(true, s, None)
    ensures s.modified && choice == Yes ==> r == Save(s, input, canonical)
    ensures s.modified && choice == No ==> r == Outcome(true, s, None)
    ensures s.modified && choice == Cancel ==> r == Outcome(false, s, None)
    ensures !r.ok ==> r.session == s && r.written == None
    ensures r.written != None ==> s.modified && choice == Yes
  {
    if s.modified then
      match choice
      case Yes => Save(s, input, canonical)
      case Cancel => Outcome(false, s, None)
      case No => Outcome(true, s, None)
    else Outcome(true, s, None)
  }

  /**
   * loadFile: when the file opens, the editor holds its text and the session
   * names it and is clean; otherwise nothing changes.
   */
  function LoadFile(s: Session, fileName: Path, opens: bool, text: string, canonical: Path -> Path): (r: Outcome)
    ensures r.ok == opens && r.written == None
    ensures r.ok ==> r.session.content == text && r.session.curFile == canonical(fileName)
                     && !r.session.isUntitled && Clean(r.session)
    ensures r.ok ==> r.session == SetCurrentFile(s.(content := text), fileName, canonical)
    ensures !r.ok ==> r.session == s
  {
    if !opens then Outcome(false, s, None)
    else Outcome(true, SetCurrentFile(s.(content := text), fileName, canonical), None)
  }

  /** documentWasModified: the window's '*' follows the document's modified flag. */
  function DocumentWasModified(s: Session): (r: Session)
    ensures r.windowModified == s.modified
    ensures r.(windowModified := s.windowModified) == s
  {
    s.(windowModified := s.modified)
  }

  /**
   * A change made in the editor: the text changes, the document becomes
   * modified, and contentsChanged runs documentWasModified.
   */
  function Edit(s: Session, text: string): (r: Session)
    ensures r.content == text && r.modified && r.windowModified
    ensures r.curFile == s.curFile && r.isUntitled == s.isUntitled && r.title == s.title
  {
    DocumentWasModified(s.(content := text, modified := true))
  }

  /**
   * Once a session has been loaded or saved, a plain Save never renames it:
   * canonicalFilePath of an already canonical path is that path, so writing
   * back to curFile keeps curFile.
   */
  lemma SaveKeepsName(s: Session, fileName: Path, input: SaveInput, canonical: Path -> Path)
    requires forall p :: canonical(canonical(p)) == canonical(p)
    ensures var t := SetCurrentFile(s, fileName, canonical);
            Save(t, input, canonical).session.curFile == t.curFile
  {
    var t := SetCurrentFile(s, fileName, canonical);
    assert canonical(t.curFile) == t.curFile;
  }

  /** After any edit, closing asks the user: Cancel keeps the edit, No drops it unwritten. */
  lemma EditedSessionAsks(s: Session, text: string, input: SaveInput, canonical: Path -> Path)
    ensures MaybeSave(Edit(s, text), Cancel, input, canonical) == Outcome(false, Edit(s, text), None)
    ensures MaybeSave(Edit(s, text), No, input, canonical) == Outcome(true, Edit(s, text), None)
  {
  }

  /** After a successful save, closing no longer asks and writes nothing. */
  lemma SavedSessionClosesSilently(s: Session, input: SaveInput, canonical: Path -> Path,
                                   choice: Choice, later: SaveInput)
    requires Save(s, input, canonical).ok
    ensures MaybeSave(Save(s, input, canonical).session, choice, later, canonical)
            == Outcome(true, Save(s, input, canonical).session, None)
  {
  }

  /**
   * A first save: a new untitled document, "hello" typed, Save As "/tmp/a.txt" (a path that is already
   * canonical). Afterwards it is clean, named "/tmp/a.txt", shown as "a.txt",
   * and "hello" went to that file.
   */
  lemma SaveAsNewDocument(canonical: Path -> Path)
    requires canonical("/tmp/a.txt") == "/tmp/a.txt"
    ensures var r := SaveAs(Edit(NewFile(Initial(), 1), "hello"), SaveInput("/tmp/a.txt", true), canonical);
            r.ok && Clean(r.session) && !r.session.isUntitled
            && r.session.curFile == "/tmp/a.txt"
            && UserFriendlyCurrentFile(r.session) == "a.txt"
            && r.written == Some(Write("/tmp/a.txt", "hello"))
  {
    var p: Path := "/tmp/a.txt";
    var r := FileName(p);
    FileNameShape(p);
    assert p[4] == '/';
    assert forall i :: 5 <= i < |p| ==> p[i] != '/';
    assert |r| >= 5;
    assert r == p[5..];
  }
}
