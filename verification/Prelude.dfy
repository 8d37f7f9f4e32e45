/** Datatypes shared by every component. */
module Prelude {

  datatype Option<+T> = None | Some(value: T)

  /** A call to another system: it works, or it raises, and then it may have worked all the same. */
  datatype Effect = Works | RaisesUndone | RaisesDone

  lemma {:induction false} SubsetIsNoLarger<T>(a: set<T>, b: set<T>)
    requires a <= b
    ensures |a| <= |b| && (a != b ==> |a| < |b|)
  {
    assert b == a + (b - a);
    assert a != b ==> b - a != {};
  }

  /** Switched on at some step before `n`, and not switched off since. */
  ghost predicate OnSince(on: nat -> bool, off: nat -> bool, n: nat, i: nat) {
    i < n && on(i) && forall j :: i < j < n ==> !off(j)
  }

  /** A switch that changes in no other way is on exactly since it was last switched on, or always was. */
  lemma {:induction false} SwitchIsOnSince(on: nat -> bool, off: nat -> bool, isOn: nat -> bool, n: nat)
    requires forall k :: 0 <= k < n ==> (isOn(k + 1) <==> on(k) || (isOn(k) && !off(k)))
    ensures isOn(n) <==> (isOn(0) && forall j :: 0 <= j < n ==> !off(j)) || exists i: nat :: OnSince(on, off, n, i)
  {
    if n > 0 {
      SwitchIsOnSince(on, off, isOn, n - 1);
      var last := n - 1;
      assert isOn(last + 1) <==> on(last) || (isOn(last) && !off(last));
      if on(last) {
        assert OnSince(on, off, n, last);
      } else {
        forall i: nat
          ensures OnSince(on, off, n, i) <==> OnSince(on, off, last, i) && !off(last)
        {
        }
      }
    }
  }
}
