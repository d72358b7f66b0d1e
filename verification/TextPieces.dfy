/** Splitting and joining text at a separator, as str.split, str.rsplit and str.join do. */
module TextPieces {
  function Split(s: string, c: char): (r: seq<string>)
    ensures |r| > 0
  {
    if s == "" then [""]
    else
      var r := Split(s[1..], c);
      if s[0] == c then [""] + r else [[s[0]] + r[0]] + r[1..]
  }

  function Join(parts: seq<string>, c: char): string {
    if parts == [] then ""
    else if |parts| == 1 then parts[0]
    else parts[0] + [c] + Join(parts[1..], c)
  }

  /** s.rsplit(c, n): at most n splits, from the right. */
  function RSplit(s: string, c: char, n: nat): (r: seq<string>)
    ensures |r| > 0
  {
    var parts := Split(s, c);
    if |parts| <= n + 1 then parts
    else [Join(parts[..|parts| - n], c)] + parts[|parts| - n..]
  }

  predicate Free(parts: seq<string>, c: char) {
    forall i :: 0 <= i < |parts| ==> c !in parts[i]
  }

  lemma {:induction false} SplitPlain(x: string, c: char)
    requires c !in x
    ensures Split(x, c) == [x]
  {
    if x != "" {
      SplitPlain(x[1..], c);
      assert [x[0]] + x[1..] == x;
    }
  }

  lemma {:induction false} SplitAt(x: string, c: char, y: string)
    requires c !in x
    ensures Split(x + [c] + y, c) == [x] + Split(y, c)
  {
    var s := x + [c] + y;
    if x == "" {
      assert s[1..] == y;
    } else {
      assert s[1..] == x[1..] + [c] + y;
      SplitAt(x[1..], c, y);
      assert [x[0]] + x[1..] == x;
    }
  }

  /** Splitting undoes joining when no part holds the separator. */
  lemma {:induction false} SplitJoin(parts: seq<string>, c: char)
    requires parts != [] && Free(parts, c)
    ensures Split(Join(parts, c), c) == parts
  {
    if |parts| == 1 {
      SplitPlain(parts[0], c);
    } else {
      SplitAt(parts[0], c, Join(parts[1..], c));
      SplitJoin(parts[1..], c);
    }
  }

  lemma {:induction false} JoinAppend(a: seq<string>, b: seq<string>, c: char)
    requires a != [] && b != []
    ensures Join(a + b, c) == Join(a, c) + [c] + Join(b, c)
  {
    if |a| == 1 {
      assert (a + b)[1..] == b;
    } else {
      assert (a + b)[1..] == a[1..] + b;
      JoinAppend(a[1..], b, c);
      assert a[0] + [c] + (Join(a[1..], c) + [c] + Join(b, c)) == Join(a, c) + [c] + Join(b, c);
    }
  }

  lemma RSplitJoin(head: seq<string>, last: seq<string>, c: char)
    requires head != [] && Free(head, c) && Free(last, c)
    ensures RSplit(Join(head + last, c), c, |last|) == [Join(head, c)] + last
  {
    SplitJoin(head + last, c);
    assert (head + last)[..|head|] == head && (head + last)[|head|..] == last;
  }

  /** Another character shows up in joined parts exactly when it does in one of them. */
  lemma {:induction false} InJoin(parts: seq<string>, c: char, d: char)
    requires c != d
    ensures d in Join(parts, c) <==> exists i :: 0 <= i < |parts| && d in parts[i]
  {
    if |parts| > 1 {
      InJoin(parts[1..], c, d);
      if d in parts[0] {
        assert d in Join(parts, c);
      } else if d in Join(parts[1..], c) {
        var i :| 0 <= i < |parts| - 1 && d in parts[1..][i];
        assert d in parts[i + 1];
      } else {
        forall i | 0 <= i < |parts| ensures d !in parts[i] {
          assert i > 0 ==> parts[i] == parts[1..][i - 1];
        }
      }
    }
  }

  /** s.count of a doubled character: occurrences that do not overlap. */
  function CountDouble(s: string, c: char): nat {
    if |s| < 2 then 0
    else if s[0] == c && s[1] == c then 1 + CountDouble(s[2..], c)
    else CountDouble(s[1..], c)
  }

  lemma {:induction false} SkipPlain(x: string, t: string, c: char)
    requires c !in x
    ensures CountDouble(x + t, c) == CountDouble(t, c)
  {
    if x == "" {
      assert x + t == t;
    } else {
      assert (x + t)[1..] == x[1..] + t;
      SkipPlain(x[1..], t, c);
    }
  }

  lemma SkipOne(x: string, t: string, c: char)
    requires c !in x && t != "" && t[0] != c
    ensures CountDouble(x + [c] + t, c) == CountDouble(t, c)
  {
    assert x + [c] + t == x + ([c] + t);
    SkipPlain(x, [c] + t, c);
    assert ([c] + t)[1..] == t;
  }

  lemma SkipTwo(x: string, t: string, c: char)
    requires c !in x
    ensures CountDouble(x + [c, c] + t, c) == 1 + CountDouble(t, c)
  {
    assert x + [c, c] + t == x + ([c, c] + t);
    SkipPlain(x, [c, c] + t, c);
    assert ([c, c] + t)[2..] == t;
  }

  /** Parts that are neither empty nor hold the separator. */
  predicate Plain(parts: seq<string>, c: char) {
    forall i :: 0 <= i < |parts| ==> parts[i] != "" && c !in parts[i]
  }

  lemma JoinStart(parts: seq<string>, c: char)
    requires parts != [] && parts[0] != ""
    ensures Join(parts, c) != "" && Join(parts, c)[0] == parts[0][0]
  {
  }

  lemma {:induction false} NoDoubles(parts: seq<string>, c: char)
    requires Plain(parts, c)
    ensures CountDouble(Join(parts, c), c) == 0
  {
    if |parts| == 1 {
      SkipPlain(parts[0], "", c);
      assert parts[0] + "" == parts[0];
    } else if |parts| > 1 {
      JoinStart(parts[1..], c);
      SkipOne(parts[0], Join(parts[1..], c), c);
      NoDoubles(parts[1..], c);
    }
  }

  /** One gap between plain parts is one doubled separator. */
  lemma {:induction false} OneDouble(a: seq<string>, t: string, c: char)
    requires a != [] && Plain(a, c)
    ensures CountDouble(Join(a, c) + [c, c] + t, c) == 1 + CountDouble(t, c)
  {
    if |a| == 1 {
      SkipTwo(a[0], t, c);
    } else {
      var rest := Join(a[1..], c) + [c, c] + t;
      JoinStart(a[1..], c);
      assert Join(a, c) + [c, c] + t == a[0] + [c] + rest;
      SkipOne(a[0], rest, c);
      OneDouble(a[1..], t, c);
    }
  }
}
