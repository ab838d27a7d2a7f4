/** Strings in the order of their UTF-16 code units, as `Array.prototype.sort` compares them. */
module CodeUnitOrder {

  /** One code unit, or a surrogate pair beyond the basic plane. */
  function UnitsOf(c: char): seq<int> {
    var v := c as int;
    if v < 0x1_0000 then [v] else [0xD800 + (v - 0x1_0000) / 0x400, 0xDC00 + (v - 0x1_0000) % 0x400]
  }

  function CodeUnits(s: string): seq<int> {
    if s == "" then [] else UnitsOf(s[0]) + CodeUnits(s[1..])
  }

  predicate UnitsLe(a: seq<int>, b: seq<int>) {
    a == [] || (b != [] && (a[0] < b[0] || (a[0] == b[0] && UnitsLe(a[1..], b[1..]))))
  }

  predicate StringLe(a: string, b: string) {
    UnitsLe(CodeUnits(a), CodeUnits(b))
  }

  lemma {:induction false} UnitsTotal(a: seq<int>, b: seq<int>)
    ensures UnitsLe(a, b) || UnitsLe(b, a)
  {
    if a != [] && b != [] && a[0] == b[0] {
      UnitsTotal(a[1..], b[1..]);
    }
  }

  lemma {:induction false} UnitsTransitive(a: seq<int>, b: seq<int>, c: seq<int>)
    requires UnitsLe(a, b) && UnitsLe(b, c)
    ensures UnitsLe(a, c)
  {
    if a != [] && a[0] == b[0] == c[0] {
      UnitsTransitive(a[1..], b[1..], c[1..]);
    }
  }

  lemma {:induction false} Total(a: string, b: string)
    ensures StringLe(a, b) || StringLe(b, a)
  {
    UnitsTotal(CodeUnits(a), CodeUnits(b));
  }

  lemma {:induction false} Transitive(a: string, b: string, c: string)
    requires StringLe(a, b) && StringLe(b, c)
    ensures StringLe(a, c)
  {
    UnitsTransitive(CodeUnits(a), CodeUnits(b), CodeUnits(c));
  }

  /** Items carry the string they are sorted by. */
  ghost predicate IsSorted<T(!new)>(key: T -> string, items: seq<T>) {
    forall i, j | 0 <= i < j < |items| :: StringLe(key(items[i]), key(items[j]))
  }

  function Insert<T>(key: T -> string, x: T, items: seq<T>): (r: seq<T>)
    ensures multiset(r) == multiset(items) + multiset{x}
  {
    if items == [] || !StringLe(key(items[0]), key(x)) then [x] + items
    else assert items == [items[0]] + items[1..]; [items[0]] + Insert(key, x, items[1..])
  }

  /** A stable sort. */
  function Sort<T>(key: T -> string, items: seq<T>): (r: seq<T>)
    ensures multiset(r) == multiset(items)
  {
    if items == [] then []
    else
      assert items == items[..|items| - 1] + [items[|items| - 1]];
      Insert(key, items[|items| - 1], Sort(key, items[..|items| - 1]))
  }

  lemma {:induction false} SameMembers<T>(a: seq<T>, b: seq<T>)
    requires multiset(a) == multiset(b)
    ensures |a| == |b| && forall x :: x in a <==> x in b
  {
    assert forall x :: x in a <==> x in multiset(a);
    assert forall x :: x in b <==> x in multiset(b);
    assert |a| == |multiset(a)| && |b| == |multiset(b)|;
  }

  lemma {:induction false} InsertKeepsSorted<T(!new)>(key: T -> string, x: T, items: seq<T>)
    requires IsSorted(key, items)
    ensures IsSorted(key, Insert(key, x, items))
  {
    if items == [] {
    } else if !StringLe(key(items[0]), key(x)) {
      Total(key(items[0]), key(x));
      forall j | 0 <= j < |items|
        ensures StringLe(key(x), key(items[j]))
      {
        if j > 0 {
          Transitive(key(x), key(items[0]), key(items[j]));
        }
      }
    } else {
      InsertKeepsSorted(key, x, items[1..]);
      var rest := Insert(key, x, items[1..]);
      forall j | 0 <= j < |rest|
        ensures StringLe(key(items[0]), key(rest[j]))
      {
        assert rest[j] in multiset(rest);
        assert rest[j] in items[1..] || rest[j] == x;
      }
    }
  }

  lemma {:induction false} SortSorts<T(!new)>(key: T -> string, items: seq<T>)
    ensures IsSorted(key, Sort(key, items))
    ensures forall x :: x in Sort(key, items) <==> x in items
  {
    SameMembers(Sort(key, items), items);
    if items != [] {
      SortSorts(key, items[..|items| - 1]);
      InsertKeepsSorted(key, items[|items| - 1], Sort(key, items[..|items| - 1]));
    }
  }
}
