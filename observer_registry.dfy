/**
 * The observer list that AppUpdater keeps (AppKitPlugin/AppUpdater.swift).
 * Observers are compared by object identity (Swift's `===`), which is
 * reference equality on Dafny objects.
 */
module ObserverRegistry {

  /** Anything that conforms to the AppUpdateObserver protocol; only its identity matters here. */
  class Observer { }

  /** The list holds every identity at most once. */
  ghost predicate NoDuplicates(s: seq<Observer>) {
    forall i, j :: 0 <= i < j < |s| ==> s[i] != s[j]
  }

  /** `addAppUpdateObserver`: append only when the identity is absent. */
  function Added(s: seq<Observer>, o: Observer): seq<Observer> {
    if o in s then s else s + [o]
  }

  /** `observers.filter { $0 !== observer }`: keep every entry that is not `o`, in order. */
  function Without(s: seq<Observer>, o: Observer): seq<Observer>
    decreases |s|
  {
    if s == [] then []
    else if s[0] == o then Without(s[1..], o)
    else [s[0]] + Without(s[1..], o)
  }

  /** Adding twice is the same as adding once. */
  lemma AddedIdempotent(s: seq<Observer>, o: Observer)
    ensures Added(Added(s, o), o) == Added(s, o)
  {
  }

  lemma AddedPreservesNoDuplicates(s: seq<Observer>, o: Observer)
    requires NoDuplicates(s)
    ensures NoDuplicates(Added(s, o))
  {
  }

  /** Exactly the entries other than `o` survive a removal. */
  lemma {:induction false} WithoutMembers(s: seq<Observer>, o: Observer)
    ensures forall x :: x in Without(s, o) <==> x in s && x != o
  {
    if s != [] {
      WithoutMembers(s[1..], o);
      assert s == [s[0]] + s[1..];
    }
  }

  /** Removal commutes with concatenation, so the survivors keep their relative order. */
  lemma {:induction false} WithoutConcat(a: seq<Observer>, b: seq<Observer>, o: Observer)
    ensures Without(a + b, o) == Without(a, o) + Without(b, o)
    decreases |a|
  {
    if a == [] {
      assert a + b == b;
    } else {
      assert (a + b)[0] == a[0];
      assert (a + b)[1..] == a[1..] + b;
      WithoutConcat(a[1..], b, o);
    }
  }

  /** Removing an absent observer changes nothing. */
  lemma {:induction false} WithoutAbsent(s: seq<Observer>, o: Observer)
    requires o !in s
    ensures Without(s, o) == s
    decreases |s|
  {
    if s != [] {
      WithoutAbsent(s[1..], o);
      assert s == [s[0]] + s[1..];
    }
  }

  /** Removal never introduces a duplicate. */
  lemma {:induction false} WithoutPreservesNoDuplicates(s: seq<Observer>, o: Observer)
    requires NoDuplicates(s)
    ensures NoDuplicates(Without(s, o))
    decreases |s|
  {
    if s != [] {
      assert NoDuplicates(s[1..]) by {
        forall i, j | 0 <= i < j < |s[1..]| ensures s[1..][i] != s[1..][j] {
          assert s[1..][i] == s[i + 1] && s[1..][j] == s[j + 1];
        }
      }
      WithoutPreservesNoDuplicates(s[1..], o);
      WithoutMembers(s[1..], o);
      if s[0] != o {
        assert s[0] !in s[1..] by {
          forall j | 0 <= j < |s[1..]| ensures s[1..][j] != s[0] {
            assert s[1..][j] == s[j + 1];
          }
        }
        var r := [s[0]] + Without(s[1..], o);
        forall i, j | 0 <= i < j < |r| ensures r[i] != r[j] {
          if i == 0 {
            assert r[j] in Without(s[1..], o);
          } else {
            assert r[i] == Without(s[1..], o)[i - 1] && r[j] == Without(s[1..], o)[j - 1];
          }
        }
      }
    }
  }

  /** In a list without duplicates, removing the entry at index k leaves exactly the others, in order. */
  lemma {:induction false} RemoveAtIndex(s: seq<Observer>, k: nat)
    requires NoDuplicates(s) && k < |s|
    ensures Without(s, s[k]) == s[..k] + s[k + 1..]
  {
    var o, before, after := s[k], s[..k], s[k + 1..];
    assert s == before + ([o] + after);
    OnlyAtIndex(s, k);
    WithoutConcat(before, [o] + after, o);
    WithoutConcat([o], after, o);
    WithoutAbsent(before, o);
    WithoutAbsent(after, o);
    assert Without([o], o) == [] by { assert [o][1..] == []; }
  }

  lemma {:induction false} OnlyAtIndex(s: seq<Observer>, k: nat)
    requires NoDuplicates(s) && k < |s|
    ensures s[k] !in s[..k] && s[k] !in s[k + 1..]
  {
    forall i | 0 <= i < k ensures s[..k][i] != s[k] { assert s[..k][i] == s[i]; }
    var after := s[k + 1..];
    forall i | 0 <= i < |after| ensures after[i] != s[k] { assert after[i] == s[k + 1 + i]; }
  }

  /** Removing an observer right after adding it (while it was absent) restores the list. */
  lemma {:induction false} RemoveUndoesAdd(s: seq<Observer>, o: Observer)
    requires o !in s
    ensures Without(Added(s, o), o) == s
  {
    WithoutConcat(s, [o], o);
    WithoutAbsent(s, o);
    assert Without([o], o) == [] by { assert [o][1..] == []; }
  }

  /** Removing twice is the same as removing once. */
  lemma {:induction false} RemoveIdempotent(s: seq<Observer>, o: Observer)
    ensures Without(Without(s, o), o) == Without(s, o)
  {
    WithoutMembers(s, o);
    WithoutAbsent(Without(s, o), o);
  }
}
