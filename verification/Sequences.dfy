/** Sequences and sets, as far as several parts of the project need the same facts about them. */
module Sequences {

  datatype Option<T> = None | Some(value: T)

  /** s without its k-th element. */
  function Without<T>(s: seq<T>, k: nat): seq<T>
    requires k < |s|
  {
    s[..k] + s[k + 1..]
  }

  /** The first n elements are different from each other. */
  ghost predicate NoRepeats<T>(s: seq<T>, n: nat)
    requires n <= |s|
  {
    n == 0 || (NoRepeats(s, n - 1) && forall j :: 0 <= j < n - 1 ==> s[j] != s[n - 1])
  }

  lemma {:induction false} NoRepeatsPairs<T>(s: seq<T>, n: nat)
    requires n <= |s|
    ensures NoRepeats(s, n) <==> forall i, j :: 0 <= i < j < n ==> s[i] != s[j]
  {
    if n > 0 { NoRepeatsPairs(s, n - 1); }
  }

  ghost predicate NoDuplicates<T>(s: seq<T>) {
    forall i, j :: 0 <= i < j < |s| ==> s[i] != s[j]
  }

  ghost function Elements<T>(s: seq<T>): set<T> {
    set x | x in s
  }

  /** A sequence has as many different elements as it is long exactly when none repeats. */
  lemma {:induction false} ElementsCount<T>(s: seq<T>)
    ensures |Elements(s)| <= |s| && (|Elements(s)| == |s| <==> NoDuplicates(s))
  {
    if s != [] {
      var n := |s| - 1;
      var rest := s[..n];
      ElementsCount(rest);
      assert forall i :: 0 <= i < n ==> rest[i] == s[i];
      if s[n] in rest {
        var i :| 0 <= i < n && s[i] == s[n];
        assert Elements(s) == Elements(rest);
      } else {
        assert Elements(s) == Elements(rest) + {s[n]};
        assert NoDuplicates(s) <==> NoDuplicates(rest);
      }
    }
  }

  lemma {:induction false} SubsetCount<T>(s: set<T>, t: set<T>)
    requires s <= t
    ensures |s| <= |t| && (s != t ==> |s| < |t|)
    decreases |s|
  {
    if s != {} {
      var x :| x in s;
      SubsetCount(s - {x}, t - {x});
      assert s == (s - {x}) + {x} && t == (t - {x}) + {x};
    } else if t != {} {
      var x :| x in t;
      assert |t| > 0;
    }
  }

  lemma TwoOf<T>(s: set<T>) returns (x: T, z: T)
    requires |s| > 1
    ensures x in s && z in s && x != z
  {
    x :| x in s;
    assert |s - {x}| == |s| - 1;
    assert s - {x} != {};
    z :| z in s - {x};
  }

  lemma Pick<T>(s: set<T>) returns (x: T)
    requires s != {}
    ensures x in s
  {
    x :| x in s;
  }
}
