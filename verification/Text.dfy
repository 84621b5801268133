/** The Python string operations the sources rely on, on sequences of characters. */
module Text {
  import opened Common

  /** The code points str.isspace and str.strip treat as white space. */
  predicate IsSpace(c: char) {
    var n := c as int;
    || 9 <= n <= 13
    || 28 <= n <= 32
    || n in {0x85, 0xA0, 0x1680, 0x2028, 0x2029, 0x202F, 0x205F, 0x3000}
    || 0x2000 <= n <= 0x200A
  }

  function StripLeft(s: string): (t: string)
    ensures t != "" ==> !IsSpace(t[0])
    ensures |t| <= |s|
  {
    if s == "" then "" else if IsSpace(s[0]) then StripLeft(s[1..]) else s
  }

  function StripRight(s: string): (t: string)
    ensures t != "" ==> !IsSpace(t[|t| - 1])
    ensures t <= s
  {
    if s == "" then "" else if IsSpace(s[|s| - 1]) then StripRight(s[..|s| - 1]) else s
  }

  function Strip(s: string): (t: string) {
    StripRight(StripLeft(s))
  }

  /** Neither end is white space, so strip() leaves the string alone. */
  predicate Stripped(s: string) {
    s != "" ==> !IsSpace(s[0]) && !IsSpace(s[|s| - 1])
  }

  lemma StripOfStripped(s: string)
    requires Stripped(s)
    ensures Strip(s) == s
  {
  }

  lemma {:induction false} StripIsStripped(s: string)
    ensures Stripped(Strip(s))
  {
    var l := StripLeft(s);
    var r := StripRight(l);
    if r != "" {
      assert r[0] == l[0];
    }
  }

  predicate AllSpace(s: string) { forall c <- s :: IsSpace(c) }

  lemma {:induction false} StripLeftPads(l: string, s: string)
    requires AllSpace(l) && (s != "" ==> !IsSpace(s[0]))
    ensures StripLeft(l + s) == s
  {
    if l == "" {
      assert l + s == s;
    } else {
      assert l[0] in l && (l + s)[1..] == l[1..] + s;
      StripLeftPads(l[1..], s);
    }
  }

  lemma {:induction false} StripRightPads(s: string, r: string)
    requires AllSpace(r) && (s != "" ==> !IsSpace(s[|s| - 1]))
    ensures StripRight(s + r) == s
  {
    if r == "" {
      assert s + r == s;
    } else {
      var n := |r| - 1;
      assert r[n] in r && (s + r)[..|s + r| - 1] == s + r[..n];
      StripRightPads(s, r[..n]);
    }
  }

  /** strip() takes off exactly the white space at both ends. */
  lemma StripPads(l: string, s: string, r: string)
    requires AllSpace(l) && AllSpace(r) && Stripped(s)
    ensures Strip(l + s + r) == s
  {
    assert l + s + r == l + (s + r);
    StripRightPads(s, r);
    if s == "" {
      assert s + r == r;
      StripLeftPads(l + r, "");
      assert l + r + "" == l + r;
    } else {
      StripLeftPads(l, s + r);
    }
  }

  predicate StartsWith(s: string, prefix: string) {
    prefix <= s
  }

  /** str.lower on ASCII letters; other characters are left alone. */
  function Lower(s: string): (t: string)
    ensures |t| == |s|
  {
    if s == "" then "" else [LowerChar(s[0])] + Lower(s[1..])
  }

  function LowerChar(c: char): char {
    if 'A' <= c <= 'Z' then (c as int + 32) as char else c
  }

  lemma {:induction false} LowerOfLower(s: string)
    requires forall x <- s :: LowerChar(x) == x
    ensures Lower(s) == s
  {
    if s != "" {
      assert s[0] in s && forall x <- s[1..] :: x in s;
      LowerOfLower(s[1..]);
      assert s == [s[0]] + s[1..];
    }
  }

  lemma {:induction false} LowerConcat(a: string, b: string)
    ensures Lower(a + b) == Lower(a) + Lower(b)
  {
    if a == "" {
      assert a + b == b;
    } else {
      assert (a + b)[1..] == a[1..] + b;
      LowerConcat(a[1..], b);
    }
  }

  /** Lower case is lower already, and a character is no letter in it that was none. */
  lemma {:induction false} LowerTwice(s: string)
    ensures Lower(Lower(s)) == Lower(s)
    ensures forall c :: c in Lower(s) && !('a' <= c <= 'z') ==> c in s
  {
    if s != "" {
      LowerTwice(s[1..]);
      assert Lower(s)[0] == LowerChar(s[0]) && Lower(s)[1..] == Lower(s[1..]);
      assert s == [s[0]] + s[1..] && Lower(s) == [LowerChar(s[0])] + Lower(s[1..]);
    }
  }

  predicate EndsWith(s: string, suffix: string) {
    |suffix| <= |s| && s[|s| - |suffix|..] == suffix
  }

  /** A name ends with a suffix exactly when it is some stem and that suffix. */
  lemma EndsWithExactly(s: string, suffix: string)
    ensures EndsWith(s, suffix) <==> exists stem :: s == stem + suffix
  {
    if EndsWith(s, suffix) {
      assert s == s[..|s| - |suffix|] + suffix;
    }
  }

  /** s.partition(c)[0]: what stands before the first `c`, all of it if there is none. */
  function Before(s: string, c: char): (t: string)
    ensures c !in t && t <= s
    ensures |t| < |s| ==> s[|t|] == c
  {
    if s == "" || s[0] == c then "" else [s[0]] + Before(s[1..], c)
  }

  /** s.partition(c)[2]: what stands after the first `c`, nothing if there is none. */
  function After(s: string, c: char): (t: string)
    ensures c in s ==> s == Before(s, c) + [c] + t
    ensures c !in s ==> t == ""
  {
    var head := Before(s, c);
    if |head| == |s| then "" else s[|head| + 1..]
  }

  /** s.split(c). */
  function Split(s: string, c: char): (parts: seq<string>)
    ensures parts != [] && forall p <- parts :: c !in p
    decreases |s|
  {
    if c in s then
      assert |s| == |Before(s, c)| + 1 + |After(s, c)|;
      [Before(s, c)] + Split(After(s, c), c)
    else [s]
  }

  /** c.join(parts). */
  function Join(parts: seq<string>, c: char): string {
    if parts == [] then "" else if |parts| == 1 then parts[0] else parts[0] + [c] + Join(parts[1..], c)
  }

  lemma {:induction false} BeforeConcat(a: string, b: string, c: char)
    requires c !in a
    ensures Before(a + b, c) == a + Before(b, c)
  {
    if a == "" {
      assert a + b == b;
    } else {
      assert (a + b)[1..] == a[1..] + b && (a + b)[0] == a[0];
      BeforeConcat(a[1..], b, c);
    }
  }

  /** What stands before and after the first `c` of a + [c] + b, when `a` has none. */
  lemma CutAt(a: string, b: string, c: char)
    requires c !in a
    ensures Before(a + [c] + b, c) == a && After(a + [c] + b, c) == b
  {
    BeforeConcat(a, [c] + b, c);
    assert a + ([c] + b) == a + [c] + b && a + "" == a;
  }

  lemma {:induction false} SplitOfJoin(parts: seq<string>, c: char)
    requires parts != [] && forall p <- parts :: c !in p
    ensures Split(Join(parts, c), c) == parts
  {
    if |parts| > 1 {
      CutAt(parts[0], Join(parts[1..], c), c);
      SplitOfJoin(parts[1..], c);
      var s := parts[0] + [c] + Join(parts[1..], c);
      assert s[|parts[0]|] == c && c in s;
    }
  }

  lemma SplitFirst(head: string, rest: string, c: char)
    requires c !in head
    ensures Split(head + [c] + rest, c) == [head] + Split(rest, c)
  {
    CutAt(head, rest, c);
    assert (head + [c] + rest)[|head|] == c;
    hide Before, After;
  }

  lemma SplitUncut(s: string, c: char)
    requires c !in s
    ensures Split(s, c) == [s]
  {
  }

  lemma {:induction false} SplitConcat(a: string, b: string, c: char)
    ensures Split(a + [c] + b, c) == Split(a, c) + Split(b, c)
    decreases |a|
  {
    hide *;
    if c in a {
      var (head, rest) := (Before(a, c), After(a, c));
      assert a + [c] + b == head + [c] + (rest + [c] + b);
      SplitFirst(head, rest + [c] + b, c);
      SplitFirst(head, rest, c);
      SplitConcat(rest, b, c);
    } else {
      SplitFirst(a, b, c);
      SplitUncut(a, c);
    }
  }

  lemma {:induction false} JoinOfSplit(s: string, c: char)
    ensures Join(Split(s, c), c) == s
    decreases |s|
  {
    if c in s {
      assert |s| == |Before(s, c)| + 1 + |After(s, c)|;
      JoinOfSplit(After(s, c), c);
    }
  }

  // ---- strings in Python's order ----

  predicate Leq(a: string, b: string) {
    a == "" || (b != "" && (a[0] < b[0] || (a[0] == b[0] && Leq(a[1..], b[1..]))))
  }

  lemma {:induction false} LeqTotal(a: string, b: string)
    ensures Leq(a, b) || Leq(b, a)
    ensures Leq(a, b) && Leq(b, a) ==> a == b
  {
    if a != "" && b != "" {
      LeqTotal(a[1..], b[1..]);
      assert a == [a[0]] + a[1..] && b == [b[0]] + b[1..];
    }
  }

  lemma {:induction false} LeqTransitive(a: string, b: string, c: string)
    requires Leq(a, b) && Leq(b, c)
    ensures Leq(a, c)
  {
    if a != "" && b != "" && c != "" && a[0] == b[0] == c[0] {
      LeqTransitive(a[1..], b[1..], c[1..]);
    }
  }

  predicate IsFirst(s: set<string>, m: string) {
    m in s && forall x <- s :: Leq(m, x)
  }

  lemma {:induction false} FirstExists(s: set<string>)
    requires s != {}
    ensures exists m :: IsFirst(s, m)
  {
    var x := Pick(s);
    var rest := s - {x};
    LeqTotal(x, x);
    if rest == {} {
      assert s == {x};
      assert IsFirst(s, x);
    } else {
      FirstExists(rest);
      var m :| IsFirst(rest, m);
      LeqTotal(x, m);
      var n := if Leq(x, m) then x else m;
      forall y | y in s
        ensures Leq(n, y)
      {
        if y in rest && n == x {
          LeqTransitive(x, m, y);
        }
      }
      assert IsFirst(s, n);
    }
  }

  function First(s: set<string>): (m: string)
    requires s != {}
    ensures IsFirst(s, m)
  {
    FirstExists(s);
    assert forall a, b :: IsFirst(s, a) && IsFirst(s, b) ==> a == b by {
      forall a, b | IsFirst(s, a) && IsFirst(s, b)
        ensures a == b
      {
        LeqTotal(a, b);
      }
    }
    var m :| m in s && IsFirst(s, m);
    m
  }

  /** sorted() of a set of distinct strings. */
  function SortedNames(s: set<string>): (xs: seq<string>)
    ensures forall x :: x in xs <==> x in s
    ensures forall i, j :: 0 <= i < j < |xs| ==> xs[i] != xs[j]
  {
    if s == {} then [] else var m := First(s); [m] + SortedNames(s - {m})
  }

  lemma {:induction false} SortedNamesOrdered(s: set<string>)
    ensures forall i, j :: 0 <= i < j < |SortedNames(s)| ==> Leq(SortedNames(s)[i], SortedNames(s)[j])
  {
    if s != {} {
      var m := First(s);
      SortedNamesOrdered(s - {m});
      var rest := SortedNames(s - {m});
      assert forall j :: 0 <= j < |rest| ==> rest[j] in rest;
    }
  }
}
