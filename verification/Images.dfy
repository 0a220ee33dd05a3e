/** Counting the elements of sequences, and counting through a correspondence. */
module Images {

  function Elements<T>(s: seq<T>): set<T> {
    set x | x in s
  }

  lemma ElementsSnoc<T>(s: seq<T>, x: T)
    ensures Elements(s + [x]) == Elements(s) + {x}
  {
  }

  lemma {:induction false} ElementsSize<T>(s: seq<T>)
    requires forall i, j | 0 <= i < j < |s| :: s[i] != s[j]
    ensures |Elements(s)| == |s|
  {
    if s != [] {
      var n := |s| - 1;
      ElementsSize(s[..n]);
      ElementsSnoc(s[..n], s[n]);
      assert s[..n] + [s[n]] == s;
    }
  }

  /** The entries of `s` at the given positions. */
  function At<T>(s: seq<T>, mine: set<nat>): set<T>
    requires forall i | i in mine :: i < |s|
  {
    set i | i in mine :: s[i]
  }

  lemma AtOneMore<T>(s: seq<T>, mine: set<nat>, i: nat)
    requires i < |s| && forall j | j in mine :: j < |s|
    ensures At(s, mine + {i}) == At(s, mine) + {s[i]}
  {
    forall x | x in At(s, mine) + {s[i]} ensures x in At(s, mine + {i}) {
      if x == s[i] {
        assert i in mine + {i};
      } else {
        var j :| j in mine && s[j] == x;
        assert j in mine + {i};
      }
    }
  }

  lemma AlsoIn<X, Y>(xs: seq<X>, ys: seq<Y>, mine: set<nat>, i: nat)
    requires i < |xs| == |ys| && forall j | j in mine :: j < |xs|
    requires forall j | j in mine :: xs[i] == xs[j] ==> ys[i] == ys[j]
    ensures xs[i] in At(xs, mine) ==> ys[i] in At(ys, mine)
  {
    if xs[i] in At(xs, mine) {
      var j :| j in mine && xs[j] == xs[i];
      assert ys[j] in At(ys, mine);
    }
  }

  lemma BothGrow<X, Y>(p: set<X>, q: set<Y>, x: X, y: Y)
    requires |p| == |q| && (x in p <==> y in q)
    ensures |p + {x}| == |q + {y}|
  {
    if x in p {
      assert p + {x} == p && q + {y} == q;
    }
  }

  /** Two sequences that identify the same positions have equally many entries at them. */
  lemma {:induction false} SameSizeAt<X, Y>(xs: seq<X>, ys: seq<Y>, mine: set<nat>)
    requires |xs| == |ys| && forall i | i in mine :: i < |xs|
    requires forall i, j | i in mine && j in mine :: xs[i] == xs[j] <==> ys[i] == ys[j]
    ensures |At(xs, mine)| == |At(ys, mine)|
    decreases mine
  {
    if mine == {} {
      assert At(xs, mine) == {} && At(ys, mine) == {};
    } else {
      var i :| i in mine;
      var rest := mine - {i};
      SameSizeAt(xs, ys, rest);
      assert mine == rest + {i};
      AtOneMore(xs, rest, i);
      AtOneMore(ys, rest, i);
      AlsoIn(xs, ys, rest, i);
      AlsoIn(ys, xs, rest, i);
      BothGrow(At(xs, rest), At(ys, rest), xs[i], ys[i]);
    }
  }
}
