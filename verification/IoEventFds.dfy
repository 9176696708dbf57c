/** The merge of the old and the new list of ioeventfds. */
module IoEventFds {
  import opened Addresses

  datatype IoEventFd = IoEventFd(fd: int, range: AddressRange, dataMatch: bool, data: nat) {
    /** Located behind `other`. */
    predicate After(other: IoEventFd) {
      range.base >= other.range.base + other.range.size
    }
  }

  ghost predicate PositiveSizes(s: seq<IoEventFd>) {
    forall i :: 0 <= i < |s| ==> s[i].range.size > 0
  }

  /** Ascending and pairwise disjoint. */
  ghost predicate Sorted(s: seq<IoEventFd>) {
    forall i, j :: 0 <= i < j < |s| ==> s[j].After(s[i])
  }

  /** Everything before positions `o` and `n` has been dealt with: deleted, added or matched. */
  ghost predicate Balanced(old_: seq<IoEventFd>, new_: seq<IoEventFd>, o: nat, n: nat,
                           deleted: seq<IoEventFd>, added: seq<IoEventFd>) {
    && o <= |old_| && n <= |new_|
    && multiset(old_[..o]) + multiset(added) == multiset(new_[..n]) + multiset(deleted)
  }

  /** For sorted lists: nothing before `o` and `n` recurs in the rest of the other
      list, and what was deleted or added has no partner. */
  ghost predicate Exact(old_: seq<IoEventFd>, new_: seq<IoEventFd>, o: nat, n: nat,
                        deleted: seq<IoEventFd>, added: seq<IoEventFd>) {
    && o <= |old_| && n <= |new_|
    && (forall i, j :: 0 <= i < o && n <= j < |new_| ==> old_[i] != new_[j])
    && (forall i, j :: o <= i < |old_| && 0 <= j < n ==> old_[i] != new_[j])
    && (forall x :: x in deleted <==> x in old_[..o] && x !in new_)
    && (forall x :: x in added <==> x in new_[..n] && x !in old_)
  }

  lemma {:induction false} BothGain(a: multiset<IoEventFd>, b: multiset<IoEventFd>, c: multiset<IoEventFd>,
                                    d: multiset<IoEventFd>, x: multiset<IoEventFd>)
    requires a + b == c + d
    ensures (a + x) + b == c + (d + x) && a + (b + x) == (c + x) + d && (a + x) + b == (c + x) + d
  {
    assert (a + x) + b == (a + b) + x && a + (b + x) == (a + b) + x;
  }

  lemma {:induction false} TakeNext(s: seq<IoEventFd>, k: nat)
    requires k < |s|
    ensures s[..k + 1] == s[..k] + [s[k]]
  {
  }

  /** Passing one old entry keeps the books, whether it was matched or deleted. */
  lemma {:induction false} OldPassed(old_: seq<IoEventFd>, new_: seq<IoEventFd>, o: nat, n: nat,
                  deleted: seq<IoEventFd>, added: seq<IoEventFd>)
    requires Balanced(old_, new_, o, n, deleted, added) && o < |old_|
    ensures Balanced(old_, new_, o + 1, n, deleted + [old_[o]], added)
    ensures n < |new_| && old_[o] == new_[n] ==> Balanced(old_, new_, o + 1, n + 1, deleted, added)
  {
    TakeNext(old_, o);
    BothGain(multiset(old_[..o]), multiset(added), multiset(new_[..n]), multiset(deleted), multiset([old_[o]]));
    assert multiset(old_[..o + 1]) == multiset(old_[..o]) + multiset([old_[o]]);
    assert multiset(deleted + [old_[o]]) == multiset(deleted) + multiset([old_[o]]);
    if n < |new_| {
      TakeNext(new_, n);
      assert multiset(new_[..n + 1]) == multiset(new_[..n]) + multiset([new_[n]]);
    }
  }

  lemma {:induction false} NewPassed(old_: seq<IoEventFd>, new_: seq<IoEventFd>, o: nat, n: nat,
                  deleted: seq<IoEventFd>, added: seq<IoEventFd>)
    requires Balanced(old_, new_, o, n, deleted, added) && n < |new_|
    ensures Balanced(old_, new_, o, n + 1, deleted, added + [new_[n]])
  {
    TakeNext(new_, n);
    BothGain(multiset(old_[..o]), multiset(added), multiset(new_[..n]), multiset(deleted), multiset([new_[n]]));
    assert multiset(new_[..n + 1]) == multiset(new_[..n]) + multiset([new_[n]]);
    assert multiset(added + [new_[n]]) == multiset(added) + multiset([new_[n]]);
  }

  /** The entry of `s` at `k` cannot recur behind an entry of `t` it is not behind. */
  lemma {:induction false} NotLater(x: IoEventFd, t: seq<IoEventFd>, n: nat)
    requires Sorted(t) && (n < |t| ==> x != t[n] && !x.After(t[n]))
    ensures forall j :: n <= j < |t| ==> x != t[j]
  {
    forall j | n < j < |t| ensures x != t[j] {
      assert t[j].After(t[n]);
    }
  }

  lemma {:induction false} MatchedExact(old_: seq<IoEventFd>, new_: seq<IoEventFd>, o: nat, n: nat,
                     deleted: seq<IoEventFd>, added: seq<IoEventFd>)
    requires Exact(old_, new_, o, n, deleted, added) && Sorted(old_) && Sorted(new_)
    requires PositiveSizes(old_) && PositiveSizes(new_)
    requires o < |old_| && n < |new_| && old_[o] == new_[n]
    ensures Exact(old_, new_, o + 1, n + 1, deleted, added)
  {
    TakeNext(old_, o);
    TakeNext(new_, n);
    forall j | n < j < |new_| ensures old_[o] != new_[j] {
      assert new_[j].After(new_[n]);
    }
    forall i | o < i < |old_| ensures old_[i] != new_[n] {
      assert old_[i].After(old_[o]);
    }
  }

  lemma {:induction false} DeletedExact(old_: seq<IoEventFd>, new_: seq<IoEventFd>, o: nat, n: nat,
                     deleted: seq<IoEventFd>, added: seq<IoEventFd>)
    requires Exact(old_, new_, o, n, deleted, added) && Sorted(new_)
    requires o < |old_| && (n < |new_| ==> old_[o] != new_[n] && !old_[o].After(new_[n]))
    ensures Exact(old_, new_, o + 1, n, deleted + [old_[o]], added)
  {
    TakeNext(old_, o);
    NotLater(old_[o], new_, n);
    assert old_[o] !in new_;
  }

  /** Walk both lists, deleting old entries and adding new ones.  Old plus added is
      always new plus deleted; on sorted disjoint lists exactly the entries
      without a partner are deleted and added. */
  method UpdateIoeventfdsPass(oldFds: seq<IoEventFd>, newFds: seq<IoEventFd>)
    returns (deleted: seq<IoEventFd>, added: seq<IoEventFd>)
    requires PositiveSizes(oldFds) && PositiveSizes(newFds)
    ensures multiset(oldFds) + multiset(added) == multiset(newFds) + multiset(deleted)
    ensures Sorted(oldFds) && Sorted(newFds) ==>
              (forall x :: x in deleted <==> x in oldFds && x !in newFds) &&
              (forall x :: x in added <==> x in newFds && x !in oldFds)
  {
    hide Balanced, Exact;
    deleted, added := [], [];
    var oldIdx, newIdx := 0, 0;
    ghost var sorted := Sorted(oldFds) && Sorted(newFds);
    Start(oldFds, newFds);
    while oldIdx < |oldFds| || newIdx < |newFds|
      invariant 0 <= oldIdx <= |oldFds| && 0 <= newIdx <= |newFds|
      invariant Balanced(oldFds, newFds, oldIdx, newIdx, deleted, added)
      invariant sorted ==> Exact(oldFds, newFds, oldIdx, newIdx, deleted, added)
      decreases |oldFds| - oldIdx + |newFds| - newIdx
    {
      var oldFd := if oldIdx < |oldFds| then Some(oldFds[oldIdx]) else None;
      var newFd := if newIdx < |newFds| then Some(newFds[newIdx]) else None;
      if oldFd == newFd {
        OldPassed(oldFds, newFds, oldIdx, newIdx, deleted, added);
        if sorted {
          MatchedExact(oldFds, newFds, oldIdx, newIdx, deleted, added);
        }
        oldIdx, newIdx := oldIdx + 1, newIdx + 1;
        continue;
      }
      if oldFd.Some? && (newFd.None? || !oldFd.value.After(newFd.value)) {
        OldPassed(oldFds, newFds, oldIdx, newIdx, deleted, added);
        if sorted {
          DeletedExact(oldFds, newFds, oldIdx, newIdx, deleted, added);
        }
        deleted := deleted + [oldFd.value];
        oldIdx := oldIdx + 1;
      }
      if newFd.Some? && (oldFd.None? || !newFd.value.After(oldFd.value)) {
        NewPassed(oldFds, newFds, oldIdx, newIdx, deleted, added);
        if sorted {
          AddedExact(oldFds, newFds, oldIdx, newIdx, deleted, added, oldFd);
        }
        added := added + [newFd.value];
        newIdx := newIdx + 1;
      }
    }
    End(oldFds, newFds, deleted, added);
  }

  lemma {:induction false} Start(old_: seq<IoEventFd>, new_: seq<IoEventFd>)
    ensures Balanced(old_, new_, 0, 0, [], []) && Exact(old_, new_, 0, 0, [], [])
  {
  }

  lemma {:induction false} End(old_: seq<IoEventFd>, new_: seq<IoEventFd>, deleted: seq<IoEventFd>,
                               added: seq<IoEventFd>)
    requires Balanced(old_, new_, |old_|, |new_|, deleted, added)
    ensures multiset(old_) + multiset(added) == multiset(new_) + multiset(deleted)
    ensures Exact(old_, new_, |old_|, |new_|, deleted, added) ==>
              (forall x :: x in deleted <==> x in old_ && x !in new_) &&
              (forall x :: x in added <==> x in new_ && x !in old_)
  {
    assert old_[..|old_|] == old_ && new_[..|new_|] == new_;
  }

  /** The new entry is added; the old entry it was compared with may just have been passed. */
  lemma {:induction false} AddedExact(old_: seq<IoEventFd>, new_: seq<IoEventFd>, o: nat, n: nat,
                   deleted: seq<IoEventFd>, added: seq<IoEventFd>, oldFd: Option<IoEventFd>)
    requires Exact(old_, new_, o, n, deleted, added) && Sorted(old_) && n < |new_|
    requires oldFd.None? ==> o == |old_|
    requires oldFd.Some? ==> oldFd.value != new_[n] && !new_[n].After(oldFd.value)
    requires oldFd.Some? ==> (o < |old_| && old_[o] == oldFd.value) || (0 < o <= |old_| && old_[o - 1] == oldFd.value)
    ensures Exact(old_, new_, o, n + 1, deleted, added + [new_[n]])
  {
    if oldFd.Some? {
      NotLater(new_[n], old_, if o < |old_| && old_[o] == oldFd.value then o else o - 1);
    }
    TakeNext(new_, n);
    assert new_[n] !in old_;
  }
}
