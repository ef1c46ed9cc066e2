/**
 The pool of command histories: a list kept in most-recently-allocated order, bounded by the number
 of history buffers, whose entries are handed to processes and taken back.
 */
module HistoryPool {
  import opened CommandHistory

  class Pool {
    var lists: seq<CommandHistory>
    var bufferSize: nat
    const limit: nat
    /** The ordinal comparison of application names that ignores case. */
    const sameApp: (string, string) -> bool

    constructor (limit: nat, bufferSize: nat, sameApp: (string, string) -> bool)
      ensures Valid() && lists == [] && this.limit == limit
    {
      lists := [];
      this.limit, this.bufferSize, this.sameApp := limit, bufferSize, sameApp;
    }

    /** Bounded, no entry twice, and an entry has a process exactly when it is in use, each its own. */
    ghost predicate Valid()
      reads this, lists
    {
      && |lists| <= limit
      && (forall i, j :: 0 <= i < j < |lists| ==> lists[i] != lists[j])
      && (forall x :: x in lists ==> Sound(x.State()) && (x.inUse <==> x.handle != 0))
      && (forall x, y :: x in lists && y in lists && x.inUse && x.handle == y.handle ==> x == y)
    }

    /** Entry `i` is free and was last used for the application. */
    predicate Suits(i: int, app: string)
      requires 0 <= i < |lists|
      reads this, lists
    {
      !lists[i].inUse && sameApp(lists[i].appName, app)
    }

    /** Entry `k` is the most recently used that suits. */
    ghost predicate FirstToSuit(k: int, app: string)
      reads this, lists
    {
      0 <= k < |lists| && Suits(k, app) && forall j :: 0 <= j < k ==> !Suits(j, app)
    }

    ghost predicate NoneSuits(app: string)
      reads this, lists
    {
      forall i :: 0 <= i < |lists| ==> !Suits(i, app)
    }

    /** The entry taken over: the last free empty one, or the last free one when no free one is empty. */
    ghost predicate TakenOver(k: int, n: int)
      requires 0 <= n <= |lists|
      reads this, lists
    {
      && 0 <= k < n && !lists[k].inUse
      && (forall j :: k < j < n && !lists[j].inUse ==> lists[j].commands != [])
      && (lists[k].commands != [] ==> forall j :: 0 <= j < n && !lists[j].inUse ==> j <= k && lists[j].commands != [])
    }

    ghost predicate NoneFree(n: int)
      requires 0 <= n <= |lists|
      reads this, lists
    {
      forall i :: 0 <= i < n ==> lists[i].inUse
    }

    ghost predicate Owned(process: nat)
      reads this, lists
    {
      exists x :: x in lists && x.handle == process
    }

    /** The entry a process owns is always in use, so the failure the source guards against is unreachable. */
    method Find(process: nat) returns (h: CommandHistory?)
      requires Valid() && process != 0
      ensures h != null <==> Owned(process)
      ensures h != null ==> h in lists && h.handle == process && h.inUse
    {
      for i := 0 to |lists|
        invariant forall j :: 0 <= j < i ==> lists[j].handle != process
      {
        if lists[i].handle == process {
          assert lists[i].inUse;
          return lists[i];
        }
      }
      h := null;
    }

    /** Takes the process's entry back; its commands stay, and nothing else changes. */
    method Free(process: nat)
      requires Valid() && process != 0
      modifies lists
      ensures Valid() && !Owned(process)
      ensures forall x :: x in lists ==> x.State() == old(x.State()) && x.appName == old(x.appName)
      ensures forall x :: x in lists && old(x.handle) != process ==> unchanged(x)
    {
      var h := Find(process);
      if h != null {
        h.inUse := false;
        h.handle := 0;
      }
    }

    /** The first free entry of the application, if there is one. */
    method FindSameApp(app: string) returns (k: int)
      ensures k == -1 <==> NoneSuits(app)
      ensures k != -1 ==> FirstToSuit(k, app) && 0 <= k < |lists| && !lists[k].inUse
    {
      k := -1;
      for i := 0 to |lists|
        invariant k == -1
        invariant forall j :: 0 <= j < i ==> !Suits(j, app)
      {
        if !lists[i].inUse {
          if sameApp(lists[i].appName, app) {
            assert Suits(i, app);
            return i;
          }
        }
      }
    }

    method FindLeastRecent() returns (k: int)
      ensures k == -1 <==> NoneFree(|lists|)
      ensures k != -1 ==> TakenOver(k, |lists|) && 0 <= k < |lists| && !lists[k].inUse
    {
      k := -1;
      for i := 0 to |lists|
        invariant k == -1 <==> NoneFree(i)
        invariant k != -1 ==> TakenOver(k, i)
      {
        if !lists[i].inUse {
          if lists[i].commands == [] || k == -1 || lists[k].commands != [] {
            k := i;
          }
        }
      }
    }

    /** Moves entry `k` to the front. */
    method MoveToFront(k: int)
      requires Valid() && 0 <= k < |lists|
      modifies this`lists
      ensures Valid() && lists == [old(lists)[k]] + old(lists)[..k] + old(lists)[k + 1..]
      ensures multiset(lists) == multiset(old(lists))
    {
      assert lists == lists[..k] + [lists[k]] + lists[k + 1..];
      lists := [lists[k]] + lists[..k] + lists[k + 1..];
    }

    /** Hands entry `k` to the process: a suitable one as it is, any other emptied and renamed. */
    method Claim(k: int, same: bool, app: string, process: nat)
      requires Valid() && 0 <= k < |lists| && !lists[k].inUse
      requires process != 0 && !Owned(process)
      modifies lists[k]
      ensures Valid() && lists[k].inUse && lists[k].handle == process
      ensures lists[k].appName == if same then old(lists[k].appName) else app
      ensures lists[k].State() == if same then old(lists[k].State())
                                  else old(lists[k].State()).(commands := [], lastDisplayed := -1)
    {
      var h := lists[k];
      if !same {
        h.commands := [];
        h.lastDisplayed := -1;
        h.appName := app;
      }
      h.handle := process;
      h.inUse := true;
    }

    /** A new entry at the front. */
    method AddNew(app: string, process: nat) returns (h: CommandHistory)
      requires Valid() && |lists| < limit && process != 0 && !Owned(process)
      modifies this`lists
      ensures Valid() && fresh(h) && lists == [h] + old(lists)
      ensures h.inUse && h.handle == process && h.appName == app && h.State() == History([], bufferSize, -1, false)
    {
      h := new CommandHistory(app, bufferSize, process);
      lists := [h] + lists;
    }

    /** The entry allocated came from place `k` and all other entries keep their order and contents. */
    twostate predicate Promoted(new h: CommandHistory?, was: seq<CommandHistory>, k: int)
      reads this, was
    {
      && 0 <= k < |was| && h == was[k]
      && lists == [was[k]] + was[..k] + was[k + 1..]
      && forall x :: x in was && x != h ==> unchanged(x)
    }

    /** The free entry at `k` is handed to the process and moved to the front. */
    method Reuse(k: int, same: bool, app: string, process: nat) returns (h: CommandHistory)
      requires Valid() && 0 <= k < |lists| && !lists[k].inUse && process != 0 && !Owned(process)
      modifies this`lists, lists[k]
      ensures Valid() && Promoted(h, old(lists), k) && h.inUse && h.handle == process
      ensures h.appName == if same then old(lists[k].appName) else app
      ensures h.State() == if same then old(lists[k].State())
                           else old(lists[k].State()).(commands := [], lastDisplayed := -1)
    {
      h := lists[k];
      Claim(k, same, app, process);
      MoveToFront(k);
    }

    /** Without an entry to prefer: a new one if there is room for it, or else a free one taken over. */
    method AllocateOther(app: string, process: nat) returns (h: CommandHistory?, ghost k: int)
      requires Valid() && process != 0 && !Owned(process)
      modifies this`lists, lists
      ensures Valid()
      ensures h == null <==> old(|lists| == limit && NoneFree(|lists|))
      ensures h == null ==> lists == old(lists) && forall x :: x in lists ==> unchanged(x)
      ensures h != null ==> h in lists && lists[0] == h && h.inUse && h.handle == process
      ensures old(|lists| < limit) ==>
        && h != null && fresh(h) && lists == [h] + old(lists) && (forall x :: x in old(lists) ==> unchanged(x))
        && h.State() == History([], bufferSize, -1, false) && h.appName == app
      ensures old(|lists| == limit && !NoneFree(|lists|)) ==>
        && Promoted(h, old(lists), k) && old(TakenOver(k, |lists|)) && h.appName == app
        && h.State() == old(lists[k].State()).(commands := [], lastDisplayed := -1)
    {
      assert |lists| <= limit;
      hide Valid, TakenOver, NoneFree, Owned;
      if |lists| < limit {
        k := -1;
        h := AddNew(app, process);
      } else {
        var best := FindLeastRecent();
        k := best;
        if best == -1 {
          h := null;
        } else {
          h := Reuse(best, false, app, process);
        }
      }
    }

    /**
     A free entry of the same application is preferred, then a new entry, then the last free empty
     entry, then the last free entry; allocation fails exactly when the pool is full and all in use.
     */
    method Allocate(app: string, process: nat) returns (h: CommandHistory?, ghost k: int)
      requires Valid() && process != 0 && !Owned(process)
      modifies this`lists, lists
      ensures Valid()
      ensures h == null <==> old(|lists| == limit && NoneFree(|lists|))
      ensures h == null ==> lists == old(lists) && forall x :: x in lists ==> unchanged(x)
      ensures h != null ==> h in lists && lists[0] == h && h.inUse && h.handle == process
      ensures old(!NoneSuits(app)) ==>
        && Promoted(h, old(lists), k) && old(FirstToSuit(k, app))
        && h.State() == old(lists[k].State()) && h.appName == old(lists[k].appName)
      ensures old(NoneSuits(app) && |lists| < limit) ==>
        && h != null && fresh(h) && lists == [h] + old(lists) && (forall x :: x in old(lists) ==> unchanged(x))
        && h.State() == History([], bufferSize, -1, false) && h.appName == app
      ensures old(NoneSuits(app) && |lists| == limit && !NoneFree(|lists|)) ==>
        && Promoted(h, old(lists), k) && old(TakenOver(k, |lists|)) && h.appName == app
        && h.State() == old(lists[k].State()).(commands := [], lastDisplayed := -1)
    {
      hide Valid, FirstToSuit, TakenOver, NoneSuits, Owned;
      var best := FindSameApp(app);
      k := best;
      if best != -1 {
        h := Reuse(best, true, app, process);
      } else {
        h, k := AllocateOther(app, process);
      }
    }

    /** Every history takes the new size, in place. */
    method ResizeAll(size: nat)
      requires Valid()
      modifies this`bufferSize, lists
      ensures Valid() && bufferSize == size
      ensures forall x :: x in lists ==>
        x.State() == Realloc(old(x.State()), size) && x.appName == old(x.appName) && x.handle == old(x.handle)
    {
      bufferSize := size;
      for i := 0 to |lists|
        invariant bufferSize == size && lists == old(lists)
        invariant forall x :: x in lists ==>
          x.appName == old(x.appName) && x.handle == old(x.handle) && x.inUse == old(x.inUse)
        invariant forall j :: 0 <= j < i ==> lists[j].State() == Realloc(old(lists[j].State()), size)
        invariant forall j :: i <= j < |lists| ==> unchanged(lists[j])
      {
        lists[i].Realloc(size);
      }
      forall x | x in lists ensures Sound(x.State()) {
        ApplySound(old(x.State()), ReallocOp(size));
      }
    }

    /** The first history in use for the application takes the size and moves to the front. */
    method ReallocExeToFront(app: string, size: nat) returns (ghost k: int)
      requires Valid()
      modifies this`lists, lists
      ensures Valid()
      ensures k == -1 ==> lists == old(lists) && forall x :: x in lists ==>
        unchanged(x) && !(x.inUse && sameApp(x.appName, app))
      ensures k != -1 ==>
        && lists != [] && Promoted(lists[0], old(lists), k) && lists[0].State() == Realloc(old(lists[k].State()), size)
        && lists[0].appName == old(lists[k].appName) && lists[0].handle == old(lists[k].handle)
        && lists[0].inUse && sameApp(lists[0].appName, app)
        && forall j :: 0 <= j < k ==> !(old(lists[j].inUse) && sameApp(old(lists[j].appName), app))
    {
      for i := 0 to |lists|
        invariant lists == old(lists) && forall x :: x in lists ==> unchanged(x)
        invariant forall j :: 0 <= j < i ==> !(lists[j].inUse && sameApp(lists[j].appName, app))
      {
        if lists[i].inUse && sameApp(lists[i].appName, app) {
          ApplySound(lists[i].State(), ReallocOp(size));
          lists[i].Realloc(size);
          MoveToFront(i);
          k := i;
          return;
        }
      }
      k := -1;
    }
  }
}
