/** Small definitions shared by the models: options, least elements, and the
    `sorted(set(xs))` idiom that the collector uses to make orders deterministic. */
module Common {

  datatype Option<+T> = None | Some(value: T)

  function Elements<T>(s: seq<T>): set<T> {
    set x | x in s
  }

  // Some element of a nonempty set.
  ghost function Pick<T>(s: set<T>): (x: T)
    requires s != {}
    ensures x in s
  {
    var x :| x in s;
    x
  }

  // ---- Least and greatest elements of finite sets ----

  lemma {:induction false} LeastExists(s: set<int>)
    requires s != {}
    ensures exists m :: m in s && forall x | x in s :: m <= x
  {
    var y := Pick(s);
    var rest := s - {y};
    if rest == {} {
      assert forall x | x in s :: x in rest || x == y;
    } else {
      LeastExists(rest);
      var m :| m in rest && forall x | x in rest :: m <= x;
      var k := if y < m then y else m;
      assert forall x | x in s :: x in rest || x == y;
      assert k in s && forall x | x in s :: k <= x;
    }
  }

  function Least(s: set<int>): (m: int)
    requires s != {}
    ensures m in s && forall x | x in s :: m <= x
  {
    LeastExists(s);
    var m :| m in s && forall x | x in s :: m <= x;
    m
  }

  ghost function Greatest(s: set<int>): (m: int)
    requires s != {}
    ensures m in s && forall x | x in s :: x <= m
  {
    var neg := set x | x in s :: -x;
    var y := Pick(s);
    assert -y in neg;
    var m := -Least(neg);
    assert forall x | x in s :: -x in neg;
    m
  }

  lemma {:induction false} SubsetCard<T>(a: set<T>, b: set<T>)
    requires a <= b
    ensures |a| <= |b|
    ensures |a| == |b| ==> a == b
  {
    assert b == a + (b - a);
    assert |b| == |a| + |b - a|;
    if |a| == |b| {
      assert b - a == {};
    }
  }

  // ---- sorted(set(xs)) under a strict total order ----

  ghost predicate StrictTotal<T(!new)>(less: (T, T) -> bool) {
    && (forall x, y :: less(x, y) ==> !less(y, x))
    && (forall x, y :: x != y ==> less(x, y) || less(y, x))
    && (forall x, y, z :: less(x, y) && less(y, z) ==> less(x, z))
  }

  ghost predicate Ascending<T>(less: (T, T) -> bool, s: seq<T>) {
    forall i, j :: 0 <= i < j < |s| ==> less(s[i], s[j])
  }

  predicate Lt(x: int, y: int) {
    x < y
  }

  lemma ConsAscending<T>(less: (T, T) -> bool, x: T, s: seq<T>)
    requires Ascending(less, s) && forall y | y in Elements(s) :: less(x, y)
    ensures Ascending(less, [x] + s) && Elements([x] + s) == Elements(s) + {x}
  {
    var r := [x] + s;
    forall i, j | 0 <= i < j < |r|
      ensures less(r[i], r[j])
    {
      assert s[j - 1] in Elements(s);
    }
  }

  // The head of an ascending list comes before its tail, and the tail is ascending.
  lemma HeadIsLeast<T>(less: (T, T) -> bool, s: seq<T>)
    requires s != [] && Ascending(less, s)
    ensures Ascending(less, s[1..]) && Elements(s) == Elements(s[1..]) + {s[0]}
    ensures forall y | y in Elements(s[1..]) :: less(s[0], y)
  {
    assert s == [s[0]] + s[1..];
  }

  function InsertSorted<T(==, !new)>(less: (T, T) -> bool, x: T, s: seq<T>): (r: seq<T>)
    requires StrictTotal(less) && Ascending(less, s)
    ensures Ascending(less, r)
    ensures Elements(r) == Elements(s) + {x}
  {
    if s == [] then [x]
    else
      HeadIsLeast(less, s);
      if x == s[0] then s
      else if less(x, s[0]) then
        ConsAscending(less, x, s);
        [x] + s
      else
        var rest := InsertSorted(less, x, s[1..]);
        ConsAscending(less, s[0], rest);
        [s[0]] + rest
  }

  function SortedSet<T(==, !new)>(less: (T, T) -> bool, s: seq<T>): (r: seq<T>)
    requires StrictTotal(less)
    ensures Ascending(less, r)
    ensures Elements(r) == Elements(s)
  {
    if s == [] then []
    else
      assert s == [s[0]] + s[1..];
      InsertSorted(less, s[0], SortedSet(less, s[1..]))
  }

  lemma ElementsConcat<T>(a: seq<T>, b: seq<T>)
    ensures Elements(a + b) == Elements(a) + Elements(b)
  {
  }

  lemma PrefixElements<T>(s: seq<T>, i: nat, next: nat)
    requires i < |s| && next == i + 1
    ensures Elements(s[..next]) == Elements(s[..i]) + {s[i]}
  {
    assert s[..next] == s[..i] + [s[i]];
  }

  lemma WholeElements<T>(s: seq<T>)
    ensures Elements(s[..|s|]) == Elements(s) && Elements(s[..0]) == {}
  {
    assert s[..|s|] == s;
  }

  // The ids of a set in ascending order.
  function SortedList(s: set<int>): (r: seq<int>)
    ensures Elements(r) == s
    ensures Ascending(Lt, r)
  {
    if s == {} then []
    else
      var m := Least(s);
      var rest := SortedList(s - {m});
      ConsAscending(Lt, m, rest);
      [m] + rest
  }

  ghost predicate Distinct<T>(s: seq<T>) {
    forall i, j | 0 <= i < j < |s| :: s[i] != s[j]
  }

  lemma ElementsSnoc<T>(s: seq<T>, x: T)
    requires x !in s
    ensures |Elements(s + [x])| == |Elements(s)| + 1
  {
    assert Elements(s + [x]) == Elements(s) + {x};
  }

  lemma {:induction false} DistinctLength<T>(s: seq<T>)
    requires Distinct(s)
    ensures |Elements(s)| == |s|
  {
    if s != [] {
      var init, last := s[..|s| - 1], s[|s| - 1];
      assert s == init + [last];
      DistinctLength(init);
      ElementsSnoc(init, last);
    }
  }

  // No repeats means no element is counted twice.
  lemma {:induction false} DistinctCounts<T>(s: seq<T>)
    ensures Distinct(s) <==> forall x :: multiset(s)[x] <= 1
  {
    if s != [] {
      var init, last := s[..|s| - 1], s[|s| - 1];
      assert s == init + [last];
      DistinctCounts(init);
      assert multiset(s) == multiset(init) + multiset{last};
      assert last in init <==> multiset(init)[last] >= 1;
      assert Distinct(s) <==> Distinct(init) && last !in init;
      if Distinct(s) {
        forall x
          ensures multiset(s)[x] <= 1
        {
        }
      } else if Distinct(init) {
        assert multiset(s)[last] >= 2;
      } else {
        var x :| multiset(init)[x] > 1;
        assert multiset(s)[x] > 1;
      }
    }
  }

  // An ascending list has no repeats, so its length is its number of elements.
  lemma AscendingLength<T(!new)>(less: (T, T) -> bool, s: seq<T>)
    requires StrictTotal(less) && Ascending(less, s)
    ensures |Elements(s)| == |s|
  {
    forall i, j | 0 <= i < j < |s|
      ensures s[i] != s[j]
    {
      assert less(s[i], s[j]);
    }
    DistinctLength(s);
  }
}
