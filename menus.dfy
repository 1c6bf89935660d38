/**
 * What the main window shows about its subwindows: which actions are
 * enabled (updateMenus) and the entries of the Window menu
 * (updateWindowMenu).
 */
module Menus {
  import opened Wrappers
  import opened Strings

  /** What Qt reports about the active editor: a selection, and undo/redo availability. */
  datatype EditView = EditView(hasSelection: bool, undoAvailable: bool, redoAvailable: bool)

  /** The enabled state of every action updateMenus sets, and the visibility of the Window menu's list separator. */
  datatype MenuState = MenuState(
    save: bool, saveAs: bool, paste: bool, close: bool, closeAll: bool,
    tile: bool, cascade: bool, next: bool, previous: bool, separator: bool,
    cut: bool, copy: bool, undo: bool, redo: bool)

  const AllDisabled := MenuState(false, false, false, false, false, false, false,
                                 false, false, false, false, false, false, false)

  /**
   * updateMenus, given the active child's view (None when there is no active
   * child). The window actions follow the presence of an active child; cut
   * and copy also need a selection, undo and redo the document's history.
   */
  function Enablement(active: Option<EditView>): (m: MenuState)
    ensures active.None? <==> m == AllDisabled
    ensures m.save <==> active.Some?
    ensures m.saveAs == m.save && m.paste == m.save && m.close == m.save && m.closeAll == m.save
    ensures m.tile == m.save && m.cascade == m.save && m.next == m.save && m.previous == m.save
    ensures m.separator == m.save
    ensures m.cut == m.copy
    ensures m.cut <==> active.Some? && active.value.hasSelection
    ensures m.undo <==> active.Some? && active.value.undoAvailable
    ensures m.redo <==> active.Some? && active.value.redoAvailable
    ensures (m.cut || m.undo || m.redo) ==> m.save
  {
    var has := active.Some?;
    MenuState(has, has, has, has, has, has, has, has, has, has,
              has && active.value.hasSelection, has && active.value.hasSelection,
              has && active.value.undoAvailable, has && active.value.redoAvailable)
  }

  /** The fixed actions at the top of the Window menu. */
  datatype WindowAction = Close | CloseAll | Tile | Cascade | Next | Previous

  /**
   * An item of the Window menu: a fixed action, a plain separator, the
   * separator before the window list (shown only when there are windows),
   * or a checkable entry that activates subwindow `target`.
   */
  datatype MenuItem =
    | Command(action: WindowAction)
    | Separator
    | ListSeparator
    | WindowEntry(text: string, checked: bool, target: nat)

  const FixedItems: seq<MenuItem> := [
    Command(Close), Command(CloseAll), Separator,
    Command(Tile), Command(Cascade), Separator,
    Command(Next), Command(Previous), ListSeparator]

  /** The longest prefix of s made of decimal digits. */
  function LeadingDigits(s: string): (d: string)
    ensures AllDigits(d) && |d| <= |s| && d == s[..|d|]
  {
    if s == [] || !IsDigit(s[0]) then [] else [s[0]] + LeadingDigits(s[1..])
  }

  lemma {:induction false} LeadingDigitsOf(d: string, rest: string)
    requires AllDigits(d) && (rest == [] || !IsDigit(rest[0]))
    ensures LeadingDigits(d + rest) == d
  {
    if d == [] {
      assert d + rest == rest;
    } else {
      LeadingDigitsOf(d[1..], rest);
      assert (d + rest)[1..] == d[1..] + rest;
    }
  }

  /** The number a Window-menu label starts with, after an optional '&'. */
  function LabelNumber(text: string): nat {
    var rest := if |text| > 0 && text[0] == '&' then text[1..] else text;
    ParseNat(LeadingDigits(rest))
  }

  /**
   * Label of the entry for the window at 0-based position i: "&<i+1> <name>"
   * for the first nine (so the digit is a keyboard accelerator), "<i+1> <name>"
   * after that.
   */
  function WindowMenuLabel(i: nat, name: string): (r: string)
    ensures |r| > |name| && (r[0] == '&' <==> i < 9)
  {
    var tail := NatToString(i + 1) + " " + name;
    if i < 9 then "&" + tail else tail
  }

  /**
   * A label starts with '&' exactly for the first nine positions, ends with
   * the window's name after a space, and its number reads back as i + 1.
   */
  lemma WindowMenuLabelShape(i: nat, name: string)
    ensures var r := WindowMenuLabel(i, name);
            |r| > |name| + 1
            && (r[0] == '&' <==> i < 9)
            && r[|r| - |name|..] == name && r[|r| - |name| - 1] == ' '
            && LabelNumber(r) == i + 1
  {
    var number := NatToString(i + 1);
    var r := WindowMenuLabel(i, name);
    LeadingDigitsOf(number, " " + name);
    assert number + " " + name == number + (" " + name);
    ParseNatToString(i + 1);
    assert i < 9 ==> r[1..] == number + " " + name;
  }

  /** Different positions give different labels, whatever the window names. */
  lemma WindowMenuLabelsDistinct(i: nat, j: nat, a: string, b: string)
    requires i != j
    ensures WindowMenuLabel(i, a) != WindowMenuLabel(j, b)
  {
    WindowMenuLabelShape(i, a);
    WindowMenuLabelShape(j, b);
  }
}
