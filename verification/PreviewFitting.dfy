/** What size fitting removes from the preview state. */
module PreviewFitting {
  import opened Wrappers
  import opened Order
  import opened Previews

  lemma ItemOrderIsTotal()
    ensures Preorder(ItemAtMost)
    ensures forall a, b :: ItemAtMost(a, b) && ItemAtMost(b, a) ==> a == b
  {
    AtMostIsPreorder();
    forall a: Item, b: Item | ItemAtMost(a, b) && ItemAtMost(b, a) ensures a == b {
      AtMostIsAntisymmetric(a.key, b.key);
    }
    forall a: Item, b: Item ensures ItemAtMost(a, b) || ItemAtMost(b, a) {
      assert AtMost(a.key, b.key) || AtMost(b.key, a.key);
    }
    forall a: Item, b: Item, c: Item | ItemAtMost(a, b) && ItemAtMost(b, c) ensures ItemAtMost(a, c) {
      if a.created == b.created == c.created {
        assert AtMost(a.key, b.key) && AtMost(b.key, c.key);
      }
    }
  }

  /** Any listing of the removable records sorts to the same sequence, so the order in which the
      map is iterated does not matter. */
  lemma SortedItemsAreUnique(s: State, protectedKey: string, items: seq<Item>)
    requires multiset(items) == multiset(ItemsOf(s, RemovableKeys(s, protectedKey)))
    ensures Sort(ItemAtMost, items) == RemovableItems(s, protectedKey)
  {
    ItemOrderIsTotal();
    var other := Listed(ItemsOf(s, RemovableKeys(s, protectedKey)));
    SortSorts(ItemAtMost, items);
    SortSorts(ItemAtMost, other);
    SortedIsUnique(ItemAtMost, Sort(ItemAtMost, items), Sort(ItemAtMost, other));
  }

  ghost predicate HasKey(items: seq<Item>, k: string) {
    exists x :: x in items && x.key == k
  }

  lemma RemovableItemsMeaning(s: State, protectedKey: string)
    ensures Sorted(ItemAtMost, RemovableItems(s, protectedKey))
    ensures forall x :: x in RemovableItems(s, protectedKey) <==>
              Removable(s, protectedKey, x.key) && x == Item(x.key, s[x.key].createdAt)
    ensures forall k :: Removable(s, protectedKey, k) ==> HasKey(RemovableItems(s, protectedKey), k)
    ensures forall i, j :: 0 <= i < j < |RemovableItems(s, protectedKey)| ==>
              RemovableItems(s, protectedKey)[i].key != RemovableItems(s, protectedKey)[j].key
  {
    ItemOrderIsTotal();
    var all := ItemsOf(s, RemovableKeys(s, protectedKey));
    var items := RemovableItems(s, protectedKey);
    SortSorts(ItemAtMost, Listed(all));
    assert multiset(items) == multiset(all);
    forall x ensures x in items <==> Removable(s, protectedKey, x.key) && x == Item(x.key, s[x.key].createdAt) {
      assert x in items <==> x in multiset(items);
      assert x in multiset(all) <==> x in all;
    }
    forall k | Removable(s, protectedKey, k) ensures HasKey(items, k) {
      assert Item(k, s[k].createdAt) in items;
    }
    forall i, j | 0 <= i < j < |items| ensures items[i].key != items[j].key {
      assert items[i] in items && items[j] in items;
      assert forall x :: multiset(all)[x] <= 1;
      NoRepeats(items, i, j);
    }
  }

  lemma NoRepeats<T>(s: seq<T>, i: nat, j: nat)
    requires i < j < |s| && forall x :: multiset(s)[x] <= 1
    ensures s[i] != s[j]
  {
    if s[i] == s[j] { RepeatedElement(s, i, j); }
  }

  lemma RepeatedElement<T>(s: seq<T>, i: nat, j: nat)
    requires i < j < |s| && s[i] == s[j]
    ensures multiset(s)[s[i]] >= 2
  {
    assert s == s[..i] + [s[i]] + s[i + 1..j] + [s[j]] + s[j + 1..];
  }

  ghost predicate RemovesPrefix(s: State, r: State, items: seq<Item>, n: nat, limits: Limits) {
    && n <= |items|
    && r == Without(s, items[..n])
    && (n == |items| || limits.Fits(r))
    && forall m :: 0 <= m < n ==> !limits.Fits(Without(s, items[..m]))
  }

  lemma WithoutFirst(s: State, items: seq<Item>, k: nat)
    requires k < |items|
    ensures Without(s, items[..k + 1]) == Without(s - {items[0].key}, items[1..][..k])
  {
    assert items[..k + 1] == [items[0]] + items[1..][..k];
  }

  lemma {:induction false} ShedRemovesPrefix(s: State, items: seq<Item>, limits: Limits) returns (n: nat)
    ensures RemovesPrefix(s, Shed(s, items, limits), items, n, limits)
  {
    assert Without(s, items[..0]) == s;
    if limits.Fits(s) || items == [] {
      n := 0;
    } else {
      var s1, rest := s - {items[0].key}, items[1..];
      var m := ShedRemovesPrefix(s1, rest, limits);
      n := m + 1;
      WithoutFirst(s, items, m);
      forall k | 0 <= k < n ensures !limits.Fits(Without(s, items[..k])) {
        if k > 0 {
          WithoutFirst(s, items, k - 1);
          assert !limits.Fits(Without(s1, rest[..k - 1]));
        }
      }
    }
  }

  /** Fitting deletes exactly the shortest prefix, oldest record first and then by key, of the
      removable records that brings the state within both limits. Every other record, in
      particular the protected key and anything confirming, confirmed or unknown, is left as it
      was. When even removing all of them is not enough, nothing is written. */
  lemma FittingRemovesOldestPrefix(s: State, protectedKey: string, limits: Limits)
    ensures exists n :: RemovesPrefix(s, Fitted(s, protectedKey, limits), RemovableItems(s, protectedKey), n, limits)
    ensures forall k :: k in s && !Removable(s, protectedKey, k) ==>
              k in Fitted(s, protectedKey, limits) && Fitted(s, protectedKey, limits)[k] == s[k]
    ensures forall k :: k in Fitted(s, protectedKey, limits) ==> k in s && Fitted(s, protectedKey, limits)[k] == s[k]
    ensures limits.Fits(Fitted(s, protectedKey, limits)) ||
            forall k :: k in Fitted(s, protectedKey, limits) ==> !Removable(s, protectedKey, k)
  {
    var items := RemovableItems(s, protectedKey);
    var n := ShedRemovesPrefix(s, items, limits);
    RemovableItemsMeaning(s, protectedKey);
    var r := Fitted(s, protectedKey, limits);
    assert RemovesPrefix(s, r, items, n, limits);
    if !limits.Fits(r) {
      assert items[..n] == items;
      forall k | k in r ensures !Removable(s, protectedKey, k) {
        assert !HasKey(items, k);
      }
    }
    forall k | k in s && !Removable(s, protectedKey, k) ensures k in r && r[k] == s[k] {
      forall i | i in items[..n] ensures i.key != k { assert i in items; }
    }
  }

  /** A commit that fails to fit, or to replace the file, leaves the disk as it was; one that
      reports success on a changed state has written a state within the limits. */
  lemma CommitIsAllOrNothing(disk: State, now: int, op: OpResult, protectedKey: string, limits: Limits, write: WriteOutcome)
    ensures var r := Committed(disk, now, op, protectedKey, limits, write);
            r == disk || (r == Fitted(op.state, protectedKey, limits) && limits.Fits(r))
    ensures CommitError(disk, now, op, protectedKey, limits, write) == Some(TooManyRecords) && op.error != Some(TooManyRecords) ==>
              Committed(disk, now, op, protectedKey, limits, write) == disk
    ensures CommitError(disk, now, op, protectedKey, limits, write) == None && op.changed ==>
              Committed(disk, now, op, protectedKey, limits, write) == Fitted(op.state, protectedKey, limits)
  {
  }

  /** A commit writes only if loading, expiry or the operation changed something, and then reports what
      kept the change from the file: too many records, too many bytes, or a failed write. */
  lemma CommitReportsExactly(disk: State, now: int, op: OpResult, protectedKey: string, limits: Limits, write: WriteOutcome)
    ensures !(op.changed || Opened(disk, now) != disk) ==>
              Committed(disk, now, op, protectedKey, limits, write) == disk && CommitError(disk, now, op, protectedKey, limits, write) == op.error
    ensures op.changed || Opened(disk, now) != disk ==>
              SavedAs(disk, Fitted(op.state, protectedKey, limits), op.error, limits, write,
                      Committed(disk, now, op, protectedKey, limits, write), CommitError(disk, now, op, protectedKey, limits, write))
  {
  }

  /** The file and the error after saving a fitted state. */
  predicate SavedAs(disk: State, fitted: State, opError: Option<PreviewError>, limits: Limits, write: WriteOutcome, r: State, error: Option<PreviewError>) {
    if |fitted| > 128 then r == disk && error == Some(TooManyRecords)
    else if !limits.Fits(fitted) then r == disk && error == Some(TooManyBytes)
    else r == (if write == WriteFailed(false) then disk else fitted) && error == if write.Written? then opError else Some(WriteError)
  }
}
