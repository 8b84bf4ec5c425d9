/** Facts about finite sets. */
module Sets {

  lemma Pick<T>(s: set<T>) returns (x: T)
    requires s != {}
    ensures x in s
  {
    x :| x in s;
  }

  function Elements<T>(s: seq<T>): set<T> { set x | x in s }

  lemma Shrinks<T>(all: set<T>, done: set<T>, x: T)
    requires x !in done
    ensures x in all ==> |all - (done + {x})| < |all - done|
    ensures x !in all ==> all - (done + {x}) == all - done
  {
    if x in all {
      assert all - done == (all - (done + {x})) + {x};
    }
  }

  lemma {:induction false} Subset<T>(a: set<T>, b: set<T>)
    requires a <= b
    ensures |a| <= |b|
  {
    if a != {} {
      var x := Pick(a);
      Subset(a - {x}, b - {x});
    }
  }
}
