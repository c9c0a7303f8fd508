/** Slots, the change ids of the database, in the order of their derived comparison. */
module Slots {

  datatype Slot = Slot(period: nat, thread: nat)

  predicate Before(a: Slot, b: Slot) {
    a.period < b.period || (a.period == b.period && a.thread < b.thread)
  }

  predicate NotAfter(a: Slot, b: Slot) {
    a == b || Before(a, b)
  }

  lemma {:induction false} EarliestExists(slots: set<Slot>)
    requires slots != {}
    ensures exists s :: s in slots && forall x :: x in slots ==> NotAfter(s, x)
  {
    var s :| s in slots;
    if slots - {s} != {} {
      EarliestExists(slots - {s});
      var first :| first in slots - {s} && forall x :: x in slots - {s} ==> NotAfter(first, x);
      var candidate := if Before(s, first) then s else first;
      assert forall x :: x in slots ==> x == s || x in slots - {s};
      assert candidate in slots && forall x :: x in slots ==> NotAfter(candidate, x);
    } else {
      assert slots == {s};
    }
  }

  lemma {:induction false} LatestExists(slots: set<Slot>)
    requires slots != {}
    ensures exists s :: s in slots && forall x :: x in slots ==> NotAfter(x, s)
  {
    var s :| s in slots;
    if slots - {s} != {} {
      LatestExists(slots - {s});
      var last :| last in slots - {s} && forall x :: x in slots - {s} ==> NotAfter(x, last);
      var candidate := if Before(last, s) then s else last;
      assert forall x :: x in slots ==> x == s || x in slots - {s};
      assert candidate in slots && forall x :: x in slots ==> NotAfter(x, candidate);
    } else {
      assert slots == {s};
    }
  }

  function Earliest(slots: set<Slot>): (s: Slot)
    requires slots != {}
    ensures s in slots && forall x :: x in slots ==> NotAfter(s, x)
  {
    EarliestExists(slots);
    var s :| s in slots && forall x :: x in slots ==> NotAfter(s, x);
    s
  }

  function Latest(slots: set<Slot>): (s: Slot)
    requires slots != {}
    ensures s in slots && forall x :: x in slots ==> NotAfter(x, s)
  {
    LatestExists(slots);
    var s :| s in slots && forall x :: x in slots ==> NotAfter(x, s);
    s
  }
}
