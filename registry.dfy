/**
 * The list logic of the main window's subwindow registry, on plain
 * sequences: finding the first subwindow that shows a given file, and the
 * subwindows that survive a round of close requests.
 */
module Registry {
  import opened Wrappers
  import opened Strings

  predicate Distinct<T(==)>(xs: seq<T>) {
    forall i, j :: 0 <= i < j < |xs| ==> xs[i] != xs[j]
  }

  /** findMdiChild's search: the first position, in list order, holding target; None if there is none. */
  function FindFirst(files: seq<Path>, target: Path): (r: Option<nat>)
    ensures r.None? <==> target !in files
    ensures r.Some? ==> r.value < |files| && files[r.value] == target && target !in files[..r.value]
  {
    if files == [] then None
    else if files[0] == target then Some(0)
    else
      match FindFirst(files[1..], target)
      case None => None
      case Some(k) =>
        assert files[1..][..k] == files[1..k + 1];
        Some(k + 1)
  }

  /** A file opened after an unsuccessful search is found, at the end, by the next search. */
  lemma FindFirstAfterAppend(files: seq<Path>, target: Path)
    requires target !in files
    ensures FindFirst(files + [target], target) == Some(|files|)
  {
  }

  /** Adding a file that is not target does not change where target is found. */
  lemma FindFirstIgnoresOthers(files: seq<Path>, other: Path, target: Path)
    requires other != target
    ensures FindFirst(files + [other], target) == FindFirst(files, target)
  {
    var r := FindFirst(files + [other], target);
    assert files == (files + [other])[..|files|];
    if r.Some? {
      assert (files + [other])[..r.value] == files[..r.value];
    }
  }

  /** The elements of xs whose close was not accepted, in their original order. */
  function Kept<T>(xs: seq<T>, closed: seq<bool>): (r: seq<T>)
    requires |xs| == |closed|
    ensures |r| <= |xs|
    ensures |r| == 0 <==> forall i :: 0 <= i < |closed| ==> closed[i]
  {
    if xs == [] then []
    else
      var n := |xs| - 1;
      Kept(xs[..n], closed[..n]) + (if closed[n] then [] else [xs[n]])
  }

  /** Every survivor was in the list before. */
  lemma {:induction false} KeptSubset<T>(xs: seq<T>, closed: seq<bool>, x: T)
    requires |xs| == |closed|
    ensures x in Kept(xs, closed) ==> x in xs
  {
    if xs != [] {
      var n := |xs| - 1;
      KeptSubset(xs[..n], closed[..n], x);
      assert xs[..n] <= xs;
    }
  }

  /** An element whose close was refused survives. */
  lemma {:induction false} KeptRefused<T>(xs: seq<T>, closed: seq<bool>, i: nat)
    requires |xs| == |closed| && i < |xs| && !closed[i]
    ensures xs[i] in Kept(xs, closed)
  {
    var n := |xs| - 1;
    if i < n {
      KeptRefused(xs[..n], closed[..n], i);
    }
  }

  /** In a list without repeats, an element whose close was accepted is gone. */
  lemma {:induction false} KeptDropsClosed<T>(xs: seq<T>, closed: seq<bool>, i: nat)
    requires |xs| == |closed| && Distinct(xs) && i < |xs| && closed[i]
    ensures xs[i] !in Kept(xs, closed)
  {
    var n := |xs| - 1;
    if i < n {
      KeptDropsClosed(xs[..n], closed[..n], i);
      assert xs[i] != xs[n];
    } else {
      KeptSubset(xs[..n], closed[..n], xs[i]);
    }
  }

  /** Closing some elements of a list without repeats leaves a list without repeats. */
  lemma {:induction false} KeptDistinct<T>(xs: seq<T>, closed: seq<bool>)
    requires |xs| == |closed| && Distinct(xs)
    ensures Distinct(Kept(xs, closed))
  {
    if xs != [] {
      var n := |xs| - 1;
      KeptDistinct(xs[..n], closed[..n]);
      KeptSubset(xs[..n], closed[..n], xs[n]);
    }
  }
}
