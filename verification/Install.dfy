/** Swapping an unpacked update into place, with the replaced parts kept aside and everything put back on failure.

    A folder is a map from names to contents. Any listing, removal, folder creation or rename may fail. */
module Install {

  const TOP_MAX: nat := 64

  type Folder = map<string, nat>

  predicate Distinct(names: seq<string>) { forall i, j :: 0 <= i < j < |names| ==> names[i] != names[j] }

  /** The children in both folders: those an update replaces. */
  function Replaced(target: Folder, staged: Folder): Folder {
    map n | n in target && n in staged :: target[n]
  }

  /** No child of the old target is lost: it is in place or aside. */
  ghost predicate Kept(was: Folder, target: Folder, backup: Folder) {
    forall n :: n in was ==> (n in target && target[n] == was[n]) || (n in backup && backup[n] == was[n])
  }

  /** The update is in place: the staged children as they were staged, the others as they were, and what was replaced aside. */
  ghost predicate Swapped(was: Folder, staged: Folder, target: Folder, backup: Folder) {
    && (forall n :: n in target <==> n in was || n in staged)
    && (forall n :: n in staged ==> n in target && target[n] == staged[n])
    && (forall n :: n in was && n !in staged ==> n in target && target[n] == was[n])
    && (forall n :: n in was && n in staged ==> n in backup && backup[n] == was[n])
  }

  // ---- where the two phases are --------------------------------------------------------------

  function Names(names: seq<string>): set<string> { set n | n in names }

  function Pick(folder: Folder, names: set<string>): Folder { map n | n in names && n in folder :: folder[n] }

  /** The names moved aside are aside; nothing else has changed. */
  ghost predicate Aside(target0: Folder, target: Folder, backup: Folder, aside: set<string>) {
    && aside <= target0.Keys && target == target0 - aside
    && forall n :: n in aside ==> n in backup && backup[n] == target0[n]
  }

  /** After that, the names placed have come over from the staged folder. */
  ghost predicate Placed(target0: Folder, staged0: Folder, target: Folder, staged: Folder, aside: set<string>, placed: set<string>) {
    && placed <= staged0.Keys && staged == staged0 - placed && target == (target0 - aside) + Pick(staged0, placed)
    && (placed != {} ==> aside == target0.Keys * staged0.Keys)
  }

  lemma AsideNone(target0: Folder, backup: Folder)
    ensures Aside(target0, target0, backup, {})
  {
  }

  lemma AsideMore(target0: Folder, target: Folder, backup: Folder, aside: set<string>, n: string)
    requires Aside(target0, target, backup, aside) && n in target
    ensures Aside(target0, target - {n}, backup[n := target[n]], aside + {n})
  {
    assert target0 - aside - {n} == target0 - (aside + {n});
  }

  lemma PlacedNone(target0: Folder, staged0: Folder, aside: set<string>)
    ensures Placed(target0, staged0, target0 - aside, staged0, aside, {})
  {
    assert staged0 - {} == staged0 && Pick(staged0, {}) == map[];
  }

  lemma PlacedMore(target0: Folder, staged0: Folder, target: Folder, staged: Folder, aside: set<string>, placed: set<string>, n: string)
    requires Placed(target0, staged0, target, staged, aside, placed) && n in staged && aside == target0.Keys * staged0.Keys
    ensures n !in target
    ensures Placed(target0, staged0, target[n := staged[n]], staged - {n}, aside, placed + {n})
  {
    assert staged0 - placed - {n} == staged0 - (placed + {n});
    assert target[n := staged[n]] == (target0 - aside) + Pick(staged0, placed + {n});
  }

  lemma PlacedLess(target0: Folder, staged0: Folder, target: Folder, staged: Folder, aside: set<string>, placed: set<string>, n: string)
    requires Placed(target0, staged0, target, staged, aside, placed) && n in placed
    ensures n in target
    ensures Placed(target0, staged0, target - {n}, staged[n := target[n]], aside, placed - {n})
  {
    assert target[n] == staged0[n];
    assert staged[n := staged0[n]] == staged0 - (placed - {n});
    assert target - {n} == (target0 - aside) + Pick(staged0, placed - {n});
  }

  lemma PlacedWhole(target0: Folder, staged0: Folder, target: Folder, staged: Folder, aside: set<string>)
    requires aside == target0.Keys * staged0.Keys && Placed(target0, staged0, target, staged, aside, staged0.Keys)
    ensures target == target0 + staged0 && staged == map[]
  {
    assert staged0 - staged0.Keys == map[];
    assert Pick(staged0, staged0.Keys) == staged0;
  }

  lemma PlacedUndone(target0: Folder, staged0: Folder, target: Folder, staged: Folder, aside: set<string>)
    requires Placed(target0, staged0, target, staged, aside, {})
    ensures target == target0 - aside && staged == staged0
  {
    assert staged0 - {} == staged0 && Pick(staged0, {}) == map[];
  }

  lemma BackOne(target0: Folder, aside: set<string>, n: string)
    requires n in aside && n in target0
    ensures (target0 - aside)[n := target0[n]] == target0 - (aside - {n})
  {
  }

  lemma NamesTail(names: seq<string>, j: nat)
    requires Distinct(names) && j < |names|
    ensures names[j] in Names(names[j..]) && Names(names[j + 1..]) == Names(names[j..]) - {names[j]}
  {
    assert names[j..] == [names[j]] + names[j + 1..];
    assert names[j] !in names[j + 1..];
  }

  /** While the children are moved back: those left are aside, and no other is lost. */
  ghost predicate Returning(target0: Folder, target: Folder, backup: Folder, left: set<string>) {
    && (forall n :: n in left ==> n in target0 && n in backup && backup[n] == target0[n])
    && forall n :: n in target0 && n !in left ==>
         (n in target && target[n] == target0[n]) || (n in backup && backup[n] == target0[n])
  }

  lemma ReturnOne(target0: Folder, target: Folder, backup: Folder, left: set<string>, n: string)
    requires Returning(target0, target, backup, left) && n in left
    ensures Returning(target0, target, backup, left - {n})
    ensures Returning(target0, target[n := backup[n]], backup - {n}, left - {n}) && backup[n] == target0[n]
  {
  }

  lemma LeftAside(target0: Folder, target: Folder, backup: Folder, left: set<string>, n: string)
    requires Returning(target0, target, backup, left) && n in left
    ensures n in target0 && n in backup
  {
  }

  lemma StartReturning(target0: Folder, target: Folder, backup: Folder, aside: set<string>)
    requires forall n :: n in aside ==> n in target0 && n in backup && backup[n] == target0[n]
    requires forall n :: n in target0 && n !in aside ==> n in target && target[n] == target0[n]
    ensures Returning(target0, target, backup, aside)
  {
  }

  lemma NoNames(names: seq<string>)
    requires names == []
    ensures Names(names) == {} && Distinct(names)
  {
  }

  lemma KeptInPlace(target: Folder, backup: Folder)
    ensures Kept(target, target, backup)
  {
  }

  lemma AllReturned(target0: Folder, target: Folder, backup: Folder)
    requires Returning(target0, target, backup, {})
    ensures Kept(target0, target, backup)
  {
  }

  class Folders {
    var target: Folder
    var staged: Folder
    var backup: Folder
    /** How many more requests the system will refuse. */
    var refusals: nat

    constructor (target: Folder, staged: Folder, backup: Folder, refusals: nat)
      ensures this.target == target && this.staged == staged && this.backup == backup && this.refusals == refusals
    {
      this.target, this.staged, this.backup, this.refusals := target, staged, backup, refusals;
    }

    method Refused() returns (fault: bool)
      modifies `refusals
      ensures if fault then refusals == old(refusals) - 1 else refusals == old(refusals)
    {
      fault := *;
      if refusals == 0 { return false; }
      if fault { refusals := refusals - 1; }
    }

    method ListChildren(folder: Folder) returns (ok: bool, names: seq<string>)
      modifies `refusals
      ensures ok ==> Distinct(names) && |names| <= TOP_MAX && forall n :: n in names <==> n in folder
      ensures refusals <= old(refusals) && (!ok && |folder| <= TOP_MAX ==> refusals < old(refusals))
    {
      names := [];
      var fault := Refused();
      if fault { return false, []; }
      var left := folder.Keys;
      while left != {}
        invariant left <= folder.Keys && Distinct(names) && |names| <= TOP_MAX && |names| + |left| == |folder.Keys|
        invariant forall n :: n in names <==> n in folder && n !in left
        decreases |left|
      {
        if |names| >= TOP_MAX { return false, []; }
        var n :| n in left;
        left := left - {n};
        names := names + [n];
      }
      return true, names;
    }

    /** May leave part of the old backup behind; the caller goes on either way. */
    method RemoveBackup() returns (cleared: bool)
      modifies `backup, `refusals
      ensures refusals <= old(refusals) && (!cleared ==> refusals < old(refusals))
      ensures cleared ==> backup == map[]
      ensures backup.Keys <= old(backup).Keys && forall n :: n in backup ==> backup[n] == old(backup)[n]
    {
      var fault := Refused();
      cleared := !fault;
      if cleared {
        backup := map[];
      } else {
        var gone: set<string> := *;
        backup := backup - gone;
      }
    }

    method MoveAside(n: string) returns (ok: bool)
      requires n in target
      modifies `target, `backup, `refusals
      ensures target == if ok then old(target) - {n} else old(target)
      ensures backup == if ok then old(backup)[n := old(target)[n]] else old(backup)
      ensures refusals <= old(refusals) && (!ok ==> refusals < old(refusals))
    {
      var fault := Refused();
      if fault { return false; }
      backup := backup[n := target[n]];
      target := target - {n};
      return true;
    }

    method Place(n: string) returns (ok: bool)
      requires n in staged && n !in target
      modifies `target, `staged, `refusals
      ensures target == if ok then old(target)[n := old(staged)[n]] else old(target)
      ensures staged == if ok then old(staged) - {n} else old(staged)
      ensures refusals <= old(refusals) && (!ok ==> refusals < old(refusals))
    {
      var fault := Refused();
      if fault { return false; }
      target := target[n := staged[n]];
      staged := staged - {n};
      return true;
    }

    method Unplace(n: string) returns (ok: bool)
      requires n in target
      modifies `target, `staged, `refusals
      ensures target == if ok then old(target) - {n} else old(target)
      ensures staged == if ok then old(staged)[n := old(target)[n]] else old(staged)
      ensures refusals <= old(refusals) && (!ok ==> refusals < old(refusals))
    {
      var fault := Refused();
      if fault { return false; }
      staged := staged[n := target[n]];
      target := target - {n};
      return true;
    }

    /** Replaces whatever has the name by then, as a rename does. */
    method MoveBack(n: string) returns (ok: bool)
      requires n in backup
      modifies `target, `backup, `refusals
      ensures target == if ok then old(target)[n := old(backup)[n]] else old(target)
      ensures backup == if ok then old(backup) - {n} else old(backup)
      ensures refusals <= old(refusals) && (!ok ==> refusals < old(refusals))
    {
      var fault := Refused();
      if fault { return false; }
      target := target[n := backup[n]];
      backup := backup - {n};
      return true;
    }

    /** Moves the replaced children aside, in listing order. */
    method MoveReplaced(present: seq<string>, incoming: seq<string>) returns (ok: bool, moved: seq<string>)
      requires Distinct(present) && (forall n :: n in present <==> n in target) && forall n :: n in incoming <==> n in staged
      modifies `target, `backup, `refusals
      ensures refusals <= old(refusals) && (!ok ==> refusals < old(refusals))
      ensures Distinct(moved) && Aside(old(target), target, backup, Names(moved)) && Names(moved) <= staged.Keys
      ensures ok ==> Names(moved) == old(target).Keys * staged.Keys
      ensures backup.Keys <= old(backup).Keys + Names(moved)
    {
      hide Aside;
      ghost var target0 := target;
      moved := [];
      assert Names(moved) == {};
      AsideNone(target, backup);
      for i := 0 to |present|
        invariant Distinct(moved) && Aside(target0, target, backup, Names(moved))
        invariant forall n :: n in moved <==> n in present[..i] && n in staged
        invariant forall n :: n in target0 && n !in present[..i] ==> n in target
        invariant backup.Keys <= old(backup).Keys + Names(moved) && refusals <= old(refusals)
      {
        var n := present[i];
        assert n !in present[..i];
        assert present[..i + 1] == present[..i] + [n];
        if n !in incoming { continue; }
        ghost var was, wasBackup := target, backup;
        var renamed := MoveAside(n);
        if !renamed { return false, moved; }
        AsideMore(target0, was, wasBackup, Names(moved), n);
        assert Names(moved + [n]) == Names(moved) + {n};
        moved := moved + [n];
      }
      assert present[..|present|] == present;
      return true, moved;
    }

    /** Moves the staged children in, in listing order. */
    method PlaceIncoming(incoming: seq<string>, ghost target0: Folder, ghost aside: set<string>) returns (ok: bool, placed: seq<string>)
      requires Distinct(incoming) && (forall n :: n in incoming <==> n in staged)
      requires aside == target0.Keys * staged.Keys && target == target0 - aside
      modifies `target, `staged, `refusals
      ensures refusals <= old(refusals) && (!ok ==> refusals < old(refusals))
      ensures Distinct(placed) && Placed(target0, old(staged), target, staged, aside, Names(placed))
      ensures ok ==> Names(placed) == old(staged).Keys
    {
      hide Placed;
      ghost var staged0 := staged;
      placed := [];
      assert Names(placed) == {};
      PlacedNone(target0, staged, aside);
      for j := 0 to |incoming|
        invariant Distinct(placed) && Placed(target0, staged0, target, staged, aside, Names(placed))
        invariant forall n :: n in placed <==> n in incoming[..j]
        invariant (forall n :: n in incoming[j..] ==> n in staged) && refusals <= old(refusals)
      {
        var n := incoming[j];
        assert n !in incoming[..j];
        assert incoming[..j + 1] == incoming[..j] + [n] && incoming[j..] == [n] + incoming[j + 1..];
        assert n !in incoming[j + 1..];
        PlacedMore(target0, staged0, target, staged, aside, Names(placed), n);
        var renamed := Place(n);
        if !renamed { return false, placed; }
        assert Names(placed + [n]) == Names(placed) + {n};
        placed := placed + [n];
      }
      assert incoming[..|incoming|] == incoming;
      return true, placed;
    }

    /** Takes the placed children out again. */
    method UnplaceAll(placed: seq<string>, ghost target0: Folder, ghost staged0: Folder, ghost aside: set<string>) returns (undone: bool)
      requires Distinct(placed) && Placed(target0, staged0, target, staged, aside, Names(placed))
      modifies `target, `staged, `refusals
      ensures refusals <= old(refusals) && (!undone ==> refusals < old(refusals))
      ensures undone ==> target == target0 - aside && staged == staged0
      ensures forall n :: n in target0 && n !in aside ==> n in target && target[n] == target0[n]
    {
      hide Placed;
      PlacedKeeps(target0, staged0, target, staged, aside, Names(placed));
      undone := true;
      assert placed[0..] == placed;
      for j := 0 to |placed|
        invariant undone ==> Placed(target0, staged0, target, staged, aside, Names(placed[j..]))
        invariant forall n :: n in target0 && n !in aside ==> n in target && target[n] == target0[n]
        invariant forall n :: n in placed[j..] ==> n in target
        invariant forall n :: n in placed ==> n !in target0 || n in aside
        invariant refusals <= old(refusals) && (!undone ==> refusals < old(refusals))
      {
        var n := placed[j];
        NamesTail(placed, j);
        assert placed[j..] == [n] + placed[j + 1..] && n !in placed[j + 1..];
        if undone { PlacedLess(target0, staged0, target, staged, aside, Names(placed[j..]), n); }
        var renamed := Unplace(n);
        undone := undone && renamed;
      }
      assert placed[|placed|..] == [] && Names([]) == {};
      if undone { PlacedUndone(target0, staged0, target, staged, aside); }
    }

    /** Brings the replaced children back. */
    method MoveAllBack(moved: seq<string>, ghost target0: Folder) returns (undone: bool)
      requires Distinct(moved) && Returning(target0, target, backup, Names(moved))
      modifies `target, `backup, `refusals
      ensures refusals <= old(refusals) && (!undone ==> refusals < old(refusals))
      ensures undone && old(target) == target0 - Names(moved) ==> target == target0
      ensures Kept(target0, target, backup)
    {
      hide Names, Kept, Returning;
      undone := true;
      ghost var exact := target == target0 - Names(moved);
      assert moved[0..] == moved;
      for i := 0 to |moved|
        invariant undone && exact ==> target == target0 - Names(moved[i..])
        invariant Returning(target0, target, backup, Names(moved[i..]))
        invariant refusals <= old(refusals) && (!undone ==> refusals < old(refusals))
      {
        var n := moved[i];
        NamesTail(moved, i);
        LeftAside(target0, target, backup, Names(moved[i..]), n);
        ReturnOne(target0, target, backup, Names(moved[i..]), n);
        var renamed := MoveBack(n);
        if undone && renamed && exact { BackOne(target0, Names(moved[i..]), n); }
        undone := undone && renamed;
      }
      NoNames(moved[|moved|..]);
      assert target0 - {} == target0;
      AllReturned(target0, target, backup);
    }

    method Swap() returns (ok: bool, cleared: bool, undone: bool)
      modifies this
      ensures ok ==> Swapped(old(target), old(staged), target, backup) && staged == map[]
      ensures ok && cleared ==> backup == Replaced(old(target), old(staged))
      ensures !ok && undone ==> target == old(target) && staged == old(staged)
      ensures Kept(old(target), target, backup)
      ensures old(refusals) == 0 && old(staged) != map[] && |old(staged)| <= TOP_MAX && |old(target)| <= TOP_MAX ==> ok && cleared
      ensures old(refusals) <= 1 && !ok ==> undone
    {
      hide Placed, Aside, Kept, Swapped, Names, Replaced, Distinct;
      ghost var target0, staged0 := target, staged;
      KeptInPlace(target0, backup);
      ok, cleared, undone := false, false, true;
      var presentOk, present := ListChildren(target);
      var incomingOk, incoming := ListChildren(staged);
      if !presentOk || !incomingOk || incoming == [] { return; }
      cleared := RemoveBackup();
      var fault := Refused();
      KeptInPlace(target0, backup);
      if fault { return; }
      var moved, placed: seq<string>;
      ok, moved := MoveReplaced(present, incoming);
      ghost var aside := Names(moved);
      AsideMeans(target0, target, backup, aside);
      placed := [];
      NoNames(placed);
      PlacedNone(target0, staged0, aside);
      if ok { ok, placed := PlaceIncoming(incoming, target0, aside); }
      if ok {
        PlacedWhole(target0, staged0, target, staged, aside);
        UpdatedKeeps(target0, staged0, target, backup, aside);
        if cleared { OnlyReplaced(target0, staged0, backup, aside); }
        return;
      }
      undone := PutBack(placed, moved, target0, staged0);
    }

    /** Undoes both phases, the second one first. */
    method PutBack(placed: seq<string>, moved: seq<string>, ghost target0: Folder, ghost staged0: Folder) returns (undone: bool)
      requires Distinct(placed) && Distinct(moved) && Placed(target0, staged0, target, staged, Names(moved), Names(placed))
      requires forall n :: n in Names(moved) ==> n in target0 && n in backup && backup[n] == target0[n]
      modifies `target, `staged, `backup, `refusals
      ensures refusals <= old(refusals) && (!undone ==> refusals < old(refusals))
      ensures undone ==> target == target0 && staged == staged0
      ensures Kept(target0, target, backup)
    {
      hide Placed, Kept, Returning, Names, Distinct;
      var unplaced := UnplaceAll(placed, target0, staged0, Names(moved));
      StartReturning(target0, target, backup, Names(moved));
      var back := MoveAllBack(moved, target0);
      undone := unplaced && back;
    }
  }

  lemma PlacedKeeps(target0: Folder, staged0: Folder, target: Folder, staged: Folder, aside: set<string>, placed: set<string>)
    requires Placed(target0, staged0, target, staged, aside, placed)
    ensures forall n :: n in target0 && n !in aside ==> n in target && target[n] == target0[n]
    ensures forall n :: n in placed ==> n in target && (n !in target0 || n in aside)
  {
  }

  lemma AsideMeans(target0: Folder, target: Folder, backup: Folder, aside: set<string>)
    requires Aside(target0, target, backup, aside)
    ensures aside <= target0.Keys && target == target0 - aside
    ensures forall n :: n in aside ==> n in backup && backup[n] == target0[n]
  {
  }

  lemma UpdatedKeeps(target0: Folder, staged0: Folder, target: Folder, backup: Folder, aside: set<string>)
    requires target == target0 + staged0 && aside == target0.Keys * staged0.Keys
    requires forall n :: n in aside ==> n in backup && backup[n] == target0[n]
    ensures Kept(target0, target, backup) && Swapped(target0, staged0, target, backup)
  {
  }

  lemma OnlyReplaced(target0: Folder, staged0: Folder, backup: Folder, aside: set<string>)
    requires aside == target0.Keys * staged0.Keys && backup.Keys <= aside
    requires forall n :: n in aside ==> n in backup && backup[n] == target0[n]
    ensures backup == Replaced(target0, staged0)
  {
  }
}
