/** The table of open file and directory handles. A directory that is about to change is first copied
    for the handles that have it open, so that each goes on reading what it opened. */
module FileTable {
  import opened Options
  const CAPACITY: nat := 65536   // MAX_OPEN_FILE_ENTRIES
  const EMFILE := 24
  const EIO := 5

  datatype Kind = NO_FH | IS_FH | IS_DIRH

  // ----- counting the used slots

  function Used(flags: seq<Kind>): nat {
    if flags == [] then 0 else (if flags[0] == NO_FH then 0 else 1) + Used(flags[1..])
  }

  lemma {:induction false} UsedChange(flags: seq<Kind>, i: nat, v: Kind)
    requires i < |flags|
    ensures Used(flags[i := v]) == Used(flags) + (if v == NO_FH then 0 else 1) - (if flags[i] == NO_FH then 0 else 1)
  {
    if i == 0 {
      assert flags[i := v][1..] == flags[1..];
    } else {
      UsedChange(flags[1..], i - 1, v);
      assert flags[i := v][1..] == flags[1..][i - 1 := v];
    }
  }

  lemma {:induction false} SomeFree(flags: seq<Kind>) returns (i: nat)
    requires Used(flags) < |flags|
    ensures i < |flags| && flags[i] == NO_FH
  {
    if flags[0] == NO_FH {
      i := 0;
    } else {
      var k := SomeFree(flags[1..]);
      i := k + 1;
    }
  }

  lemma {:induction false} NoneUsed(n: nat)
    ensures Used(seq(n, _ => NO_FH)) == 0
  {
    if n > 0 {
      NoneUsed(n - 1);
      assert seq(n, _ => NO_FH)[1..] == seq(n - 1, _ => NO_FH);
    }
  }

  /** How far it is from `i` round to `j`. */
  function Ahead(i: nat, j: nat): nat
    requires i < CAPACITY && j < CAPACITY
  {
    if i <= j then j - i else j + CAPACITY - i
  }

  class Table<D> {
    const flag: array<Kind>
    const inode: array<int>
    const snapshot: array<Option<D>>
    var numOpened: nat
    var unsnapped: bool          // have_nonsnap_dir
    var next: nat                // last_available_index
    var content: map<int, D>     // the directories as they are now
    ghost var atOpen: map<int, D>   // what each directory handle opened

    ghost predicate Shaped()
      reads this
    {
      flag.Length == inode.Length == snapshot.Length == CAPACITY && next < CAPACITY
    }

    predicate OpenDir(i: nat)
      requires i < flag.Length
      reads flag
    {
      flag[i] == IS_DIRH
    }

    /** The handle has the directory open and has no copy of it yet. */
    ghost predicate Waits(i: nat, ino: int)
      requires i < flag.Length && i < inode.Length && i < snapshot.Length
      reads flag, inode, snapshot
    {
      OpenDir(i) && inode[i] == ino && snapshot[i].None?
    }

    /** Some handle waits for a copy that cannot be made, or that it cannot open. */
    ghost predicate Hampered(ino: int, copyOk: bool, failAt: int)
      requires Shaped()
      reads this, flag, inode, snapshot
    {
      exists i: nat :: i < CAPACITY && Waits(i, ino) && (!copyOk || i == failAt)
    }

    /** The handle still sees what it opened: in its copy, or in the directory as it is. */
    ghost predicate Sees(i: nat)
      requires i < inode.Length && i < snapshot.Length
      reads this, inode, snapshot
    {
      i in atOpen &&
      match snapshot[i]
      case Some(d) => d == atOpen[i]
      case None => inode[i] in content && content[inode[i]] == atOpen[i]
    }

    ghost predicate Valid()
      reads this, flag, inode, snapshot
    {
      Shaped() && numOpened == Used(flag[..]) &&
      (forall i: nat :: i < CAPACITY && OpenDir(i) ==> Sees(i)) &&
      (!unsnapped ==> forall i: nat :: i < CAPACITY && OpenDir(i) ==> snapshot[i].Some?)
    }

    constructor (content: map<int, D>)
      ensures Valid() && fresh(flag) && fresh(inode) && fresh(snapshot) && this.content == content && numOpened == 0
      ensures !unsnapped && forall i: nat :: i < CAPACITY ==> flag[i] == NO_FH
    {
      flag := new Kind[CAPACITY](_ => NO_FH);
      inode := new int[CAPACITY](_ => 0);
      snapshot := new Option<D>[CAPACITY](_ => None);
      numOpened, unsnapped, next, atOpen := 0, false, 0, map[];
      this.content := content;
      new;
      assert flag[..] == seq(CAPACITY, _ => NO_FH);
      NoneUsed(CAPACITY);
    }

    /** The first free slot from `next` on, going round. */
    method FindFree() returns (index: nat)
      requires Shaped() && Used(flag[..]) < CAPACITY
      ensures index < CAPACITY && flag[index] == NO_FH
    {
      ghost var free := SomeFree(flag[..]);
      index := next % CAPACITY;
      while flag[index] != NO_FH
        invariant index < CAPACITY
        decreases Ahead(index, free)
      {
        assert index != free;
        index := (index + 1) % CAPACITY;
      }
    }

    method Open(ino: int, isDir: bool) returns (index: int)
      requires Valid() && (isDir ==> ino in content)
      modifies this, flag, inode, snapshot
      ensures Valid() && content == old(content)
      ensures index < 0 <==> old(numOpened) == CAPACITY
      ensures index < 0 ==>
                index == -EMFILE && flag[..] == old(flag[..]) && numOpened == old(numOpened) && atOpen == old(atOpen)
      ensures index >= 0 ==> index < CAPACITY && old(flag[index]) == NO_FH && numOpened == old(numOpened) + 1
      ensures index >= 0 ==> flag[..] == old(flag[..])[index := if isDir then IS_DIRH else IS_FH]
      ensures inode[..] == if index < 0 then old(inode[..]) else old(inode[..])[index := ino]
      ensures snapshot[..] == if index < 0 || !isDir then old(snapshot[..]) else old(snapshot[..])[index := None]
      ensures index >= 0 && isDir ==> atOpen == old(atOpen)[index := content[ino]]
    {
      UsedBound(flag[..]);
      if numOpened >= CAPACITY { return -EMFILE; }
      var i := FindFree();
      UsedChange(flag[..], i, if isDir then IS_DIRH else IS_FH);
      ghost var f := flag[..];
      inode[i] := ino;
      if isDir {
        flag[i] := IS_DIRH;
        snapshot[i] := None;
        unsnapped := true;
        atOpen := atOpen[i := content[ino]];
      } else {
        flag[i] := IS_FH;
      }
      assert flag[..] == f[i := flag[i]];
      numOpened := numOpened + 1;
      forall k: nat | k < CAPACITY && OpenDir(k) && k != i ensures Sees(k) { assert old(OpenDir(k)) && old(Sees(k)); }
      return i;
    }

    method Close(index: nat) returns (ret: int)
      requires Valid() && index < CAPACITY
      modifies this, flag, inode, snapshot
      ensures Valid() && content == old(content)
      ensures ret == if old(flag[index]) == IS_FH || old(flag[index]) == IS_DIRH then 0 else -1
      ensures ret == 0 ==> flag[..] == old(flag[..])[index := NO_FH] && numOpened == old(numOpened) - 1 && next == index
      ensures ret < 0 ==> flag[..] == old(flag[..]) && numOpened == old(numOpened)
      ensures inode[..] == if ret < 0 then old(inode[..]) else old(inode[..])[index := 0]
      ensures forall i: nat :: i < CAPACITY && i != index ==> snapshot[i] == old(snapshot[i])
      ensures atOpen == old(atOpen)
      ensures old(flag[index]) == IS_DIRH ==> snapshot[index] == None
    {
      UsedChange(flag[..], index, NO_FH);
      ghost var f := flag[..];
      if flag[index] == IS_FH {
        flag[index] := NO_FH;
        inode[index] := 0;
        next := index;
      } else if flag[index] == IS_DIRH {
        snapshot[index] := None;
        flag[index] := NO_FH;
        inode[index] := 0;
        next := index;
      } else {
        return -1;
      }
      assert flag[..] == f[index := NO_FH];
      numOpened := numOpened - 1;
      forall i: nat | i < CAPACITY && OpenDir(i) ensures Sees(i) && (!unsnapped ==> snapshot[i].Some?) {
        assert i != index && old(OpenDir(i)) && old(Sees(i));
      }
      return 0;
    }

    /** Gives every handle on the directory that has no copy yet one of it as it is. Making the copy may
        fail, and so may opening it for the handle in slot `failAt`; the handles before it keep theirs. */
    method Snapshot(ino: int, copyOk: bool, failAt: int) returns (ret: int)
      requires Valid() && ino in content
      modifies this`unsnapped, snapshot
      ensures Valid() && ret == if old(Hampered(ino, copyOk, failAt)) then -EIO else 0
      ensures forall i: nat :: i < CAPACITY && !old(Waits(i, ino)) ==> snapshot[i] == old(snapshot[i])
      ensures forall i: nat :: i < CAPACITY && old(Waits(i, ino)) ==>
                snapshot[i] == if copyOk && (ret == 0 || i < failAt) then Some(content[ino]) else None
      ensures ret == 0 && old(unsnapped) ==> (unsnapped <==> exists i: nat :: i < CAPACITY && Waits(i, inode[i]))
    {
      if !unsnapped { return 0; }
      ghost var before := snapshot[..];
      var created, others := false, false;
      var count := 0;
      while count < CAPACITY
        invariant count <= CAPACITY && unsnapped
        invariant forall i: nat :: i < CAPACITY && !old(Waits(i, ino)) ==> snapshot[i] == before[i]
        invariant forall i: nat :: i < count && old(Waits(i, ino)) ==>
                    copyOk && i != failAt && snapshot[i] == Some(content[ino])
        invariant forall i: nat :: count <= i < CAPACITY ==> snapshot[i] == before[i]
        invariant created ==> copyOk
        invariant forall i: nat :: i < CAPACITY && OpenDir(i) ==> Sees(i)
        invariant others <==> exists i: nat :: i < count && Waits(i, inode[i])
      {
        if OpenDir(count) && snapshot[count].None? {
          assert Sees(count) && old(Sees(count));
          if inode[count] == ino && !created {
            assert old(Waits(count, ino));
            if !copyOk { return -EIO; }
            created := true;
          }
          if inode[count] == ino {
            assert old(Waits(count, ino));
            if count == failAt { return -EIO; }
            snapshot[count] := Some(content[ino]);
          } else {
            others := true;
          }
        }
        count := count + 1;
      }
      unsnapped := others;
      return 0;
    }

    /** A change of a directory, after the copies have been made. */
    method ChangeDir(ino: int, d: D, copyOk: bool, failAt: int) returns (ret: int)
      requires Valid() && ino in content
      modifies this, snapshot
      ensures Valid() && atOpen == old(atOpen) && flag[..] == old(flag[..])
      ensures ret == if old(Hampered(ino, copyOk, failAt)) then -EIO else 0
      ensures content == if ret == 0 then old(content)[ino := d] else old(content)
      ensures inode[..] == old(inode[..])
      ensures forall i: nat :: i < CAPACITY && !old(Waits(i, ino)) ==> snapshot[i] == old(snapshot[i])
      ensures ret == 0 ==>
                forall i: nat :: i < CAPACITY && old(Waits(i, ino)) ==> snapshot[i] == Some(old(content)[ino])
    {
      ret := Snapshot(ino, copyOk, failAt);
      if ret < 0 { return; }
      content := content[ino := d];
    }
  }

  lemma {:induction false} UsedBound(flags: seq<Kind>)
    ensures Used(flags) <= |flags|
  {
    if flags != [] { UsedBound(flags[1..]); }
  }
}
