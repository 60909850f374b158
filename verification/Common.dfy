/** Small vocabulary shared by every module. */
module Common {

  /** A Go value that may be nil, or a comma-ok result. */
  datatype Option<+T> = None | Some(value: T)

  /** The members of a sequence. */
  function Elements<T>(s: seq<T>): set<T> {
    set x | x in s
  }

  function Last<T>(s: seq<T>): T
    requires s != []
  {
    s[|s| - 1]
  }

  ghost predicate Distinct<T>(s: seq<T>) {
    forall i, j :: 0 <= i < j < |s| ==> s[i] != s[j]
  }

  lemma Prepend<T>(head: seq<T>, all: seq<T>, a: seq<T>, b: seq<T>)
    requires all == a + b
    ensures head + all == (head + a) + b
  {
  }

  lemma ElementsConcat<T>(a: seq<T>, b: seq<T>)
    ensures Elements(a + b) == Elements(a) + Elements(b)
  {
    assert forall x :: x in a + b <==> x in a || x in b;
  }

  lemma DistinctConcat<T>(a: seq<T>, b: seq<T>)
    requires Distinct(a) && Distinct(b) && Elements(a) !! Elements(b)
    ensures Distinct(a + b)
  {
    var s := a + b;
    forall i, j | 0 <= i < j < |s| ensures s[i] != s[j] {
      if i < |a| <= j {
        assert s[i] in Elements(a) && s[j] in Elements(b);
      }
    }
  }

  /** Program sources by program ID. */
  type Sources = map<string, string>

  /** A cache that agrees with the network snapshot. */
  ghost predicate Agrees(net: Sources, c: Sources) {
    forall id :: id in c ==> id in net && c[id] == net[id]
  }
}
