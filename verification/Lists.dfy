/** Facts about finite sequences used by every buffer queue of the model. */
module Lists {

  datatype Option<+T> = None | Some(value: T)

  ghost function Elems<T>(s: seq<T>): set<T> {
    set x | x in s
  }

  /** No element occurs twice. Stated by counting; `Distinct` gives the pairwise form. */
  ghost predicate NoDup<T>(s: seq<T>) {
    |Elems(s)| == |s|
  }

  ghost predicate Pairwise<T>(s: seq<T>) {
    forall i, j :: 0 <= i < j < |s| ==> s[i] != s[j]
  }

  lemma {:induction false} ElemsSize<T>(s: seq<T>)
    ensures |Elems(s)| <= |s|
    ensures |Elems(s)| == |s| <==> Pairwise(s)
  {
    if s == [] {
      assert Elems(s) == {};
    } else {
      var n := |s| - 1;
      var t, x := s[..n], s[n];
      ElemsSize(t);
      assert s == t + [x];
      assert Elems(s) == Elems(t) + {x};
      if x in t {
        var i :| 0 <= i < n && t[i] == x;
        assert s[i] == s[n];
        assert Elems(s) == Elems(t);
      } else {
        assert Pairwise(t) ==> Pairwise(s);
        assert Pairwise(s) ==> Pairwise(t) by {
          if Pairwise(s) {
            forall i, j | 0 <= i < j < |t| ensures t[i] != t[j] {
              assert s[i] != s[j];
            }
          }
        }
      }
    }
  }

  lemma Distinct<T>(s: seq<T>)
    ensures NoDup(s) <==> Pairwise(s)
  {
    ElemsSize(s);
  }

  function RemoveAt<T>(s: seq<T>, i: nat): (r: seq<T>)
    requires i < |s|
    ensures |r| == |s| - 1
  {
    s[..i] + s[i + 1..]
  }

  /** The first position whose element satisfies `p`, or `|s|` when there is none:
      what a C++ iterator loop that breaks on `p` stops at. */
  function First<T>(s: seq<T>, p: T -> bool): (i: nat)
    ensures i <= |s|
    ensures i < |s| ==> p(s[i])
    ensures forall j :: 0 <= j < i ==> !p(s[j])
  {
    if s == [] then 0 else if p(s[0]) then 0 else 1 + First(s[1..], p)
  }

  lemma FirstIs<T>(s: seq<T>, p: T -> bool, i: nat)
    requires i <= |s|
    requires i < |s| ==> p(s[i])
    requires forall j :: 0 <= j < i ==> !p(s[j])
    ensures First(s, p) == i
  {
    if s != [] && !p(s[0]) {
      FirstIs(s[1..], p, i - 1);
    }
  }

  lemma RemoveAtMembers<T>(s: seq<T>, i: nat)
    requires i < |s| && NoDup(s)
    ensures NoDup(RemoveAt(s, i))
    ensures Elems(RemoveAt(s, i)) == Elems(s) - {s[i]}
  {
    Distinct(s);
    Distinct(RemoveAt(s, i));
    var r := RemoveAt(s, i);
    forall x | x in s && x != s[i] ensures x in r {
      var j :| 0 <= j < |s| && s[j] == x;
      assert r[if j < i then j else j - 1] == x;
    }
  }

  lemma NoDupEmpty<T>()
    ensures NoDup<T>([])
  {
    Distinct<T>([]);
  }

  lemma AppendNoDup<T>(s: seq<T>, x: T)
    requires NoDup(s) && x !in s
    ensures NoDup(s + [x]) && Elems(s + [x]) == Elems(s) + {x}
  {
    assert Elems(s + [x]) == Elems(s) + {x};
  }

  lemma NoDupTail<T>(s: seq<T>)
    requires NoDup(s) && s != []
    ensures NoDup(s[1..]) && s[0] !in s[1..]
  {
    Distinct(s);
    Distinct(s[1..]);
  }

  lemma NoDupParts<T>(s: seq<T>, t: seq<T>)
    requires NoDup(s + t)
    ensures NoDup(s) && NoDup(t) && forall x :: x in s ==> x !in t
  {
    Distinct(s + t);
    Distinct(s);
    Distinct(t);
    assert forall i | 0 <= i < |s| :: (s + t)[i] == s[i];
    assert forall i | 0 <= i < |t| :: (s + t)[|s| + i] == t[i];
    forall i, j | 0 <= i < j < |t| ensures t[i] != t[j] {
      assert (s + t)[|s| + i] != (s + t)[|s| + j];
    }
  }
}
