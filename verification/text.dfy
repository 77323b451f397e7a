/** The handful of Go `strings` operations the mail tools rely on, over
    `string == seq<char>`: TrimSpace, Trim with a cutset, TrimSuffix, Index,
    Split, Join and ReplaceAll of a single character.
 */
module Text {

  /** Go's `unicode.IsSpace`: the Latin-1 spaces and the remaining
      White_Space code points. */
  predicate IsSpace(c: char) {
    var k := c as int;
    || k == 0x20 || 0x09 <= k <= 0x0D || k == 0x85 || k == 0xA0
    || k == 0x1680 || 0x2000 <= k <= 0x200A || k == 0x2028 || k == 0x2029
    || k == 0x202F || k == 0x205F || k == 0x3000
  }

  /** Drops the longest prefix whose characters all satisfy `drop`. */
  function TrimLeftBy(s: string, drop: char -> bool): (r: string)
    ensures |r| <= |s|
    ensures r != [] ==> !drop(r[0])
    decreases |s|
  {
    if s != [] && drop(s[0]) then TrimLeftBy(s[1..], drop) else s
  }

  /** What is dropped on the left is a prefix of dropped characters. */
  lemma {:induction false} TrimLeftByDrops(s: string, drop: char -> bool)
    ensures var r := TrimLeftBy(s, drop);
      r == s[|s| - |r|..] && forall i :: 0 <= i < |s| - |r| ==> drop(s[i])
    decreases |s|
  {
    if s != [] && drop(s[0]) {
      TrimLeftByDrops(s[1..], drop);
      var r := TrimLeftBy(s, drop);
      assert s[1..][|s| - 1 - |r|..] == s[|s| - |r|..];
      assert forall i :: 1 <= i < |s| - |r| ==> s[i] == s[1..][i - 1];
    }
  }

  /** Drops the longest suffix whose characters all satisfy `drop`. */
  function TrimRightBy(s: string, drop: char -> bool): (r: string)
    ensures |r| <= |s|
    ensures r != [] ==> r[0] == s[0] && !drop(r[|r| - 1])
    decreases |s|
  {
    if s != [] && drop(s[|s| - 1]) then TrimRightBy(s[..|s| - 1], drop) else s
  }

  /** What is dropped on the right is a suffix of dropped characters. */
  lemma {:induction false} TrimRightByDrops(s: string, drop: char -> bool)
    ensures var r := TrimRightBy(s, drop);
      r == s[..|r|] && forall i :: |r| <= i < |s| ==> drop(s[i])
    decreases |s|
  {
    if s != [] && drop(s[|s| - 1]) {
      TrimRightByDrops(s[..|s| - 1], drop);
      var r := TrimRightBy(s, drop);
      assert s[..|s| - 1][..|r|] == s[..|r|];
      assert forall i :: |r| <= i < |s| - 1 ==> s[i] == s[..|s| - 1][i];
    }
  }

  /** Go's `strings.TrimFunc`: both ends stripped. */
  function TrimBy(s: string, drop: char -> bool): (r: string)
    ensures |r| <= |s|
    ensures r != [] ==> !drop(r[0]) && !drop(r[|r| - 1])
  {
    TrimRightBy(TrimLeftBy(s, drop), drop)
  }

  /** Trimming removes only characters to drop, and only from the ends: the
      result is empty iff every character is dropped, every kept character
      of the input is in the result, and the result invents nothing. */
  lemma TrimByKeeps(s: string, drop: char -> bool)
    ensures var r := TrimBy(s, drop);
      && ((forall i :: 0 <= i < |s| ==> drop(s[i])) <==> r == [])
      && (forall i :: 0 <= i < |s| && !drop(s[i]) ==> s[i] in r)
      && (forall c :: c in r ==> c in s)
  {
    var l := TrimLeftBy(s, drop);
    var r := TrimRightBy(l, drop);
    var d := |s| - |l|;
    TrimLeftByDrops(s, drop);
    TrimRightByDrops(l, drop);
    TrimByEmpty(s, drop, l, r, d);
    KeptInside(s, drop, l, r, d);
    InfixChars(l, 0, |r|);
    InfixChars(s, d, |s|);
  }

  /** Everything is trimmed away iff every character is dropped. */
  lemma TrimByEmpty(s: string, drop: char -> bool, l: string, r: string, d: nat)
    requires l == TrimLeftBy(s, drop) && r == TrimRightBy(l, drop) && d == |s| - |l|
    requires l == s[d..] && forall i :: 0 <= i < d ==> drop(s[i])
    requires forall i :: |r| <= i < |l| ==> drop(l[i])
    ensures (forall i :: 0 <= i < |s| ==> drop(s[i])) <==> r == []
  {
    assert l != [] ==> l[0] == s[d] && !drop(s[d]);
    assert r == [] ==> d == |s|;
  }

  /** An infix holds only characters of the whole. */
  lemma InfixChars(s: string, i: nat, j: nat)
    requires i <= j <= |s|
    ensures forall c :: c in s[i..j] ==> c in s
  {
    forall c | c in s[i..j] ensures c in s {
      var k :| 0 <= k < j - i && s[i..j][k] == c;
      assert s[i + k] == c;
    }
  }

  /** The kept characters of `s` all lie in the infix `r` of `s`. */
  lemma KeptInside(s: string, drop: char -> bool, l: string, r: string, d: nat)
    requires d + |l| == |s| && l == s[d..] && |r| <= |l| && r == l[..|r|]
    requires forall i :: 0 <= i < d ==> drop(s[i])
    requires forall i :: |r| <= i < |l| ==> drop(l[i])
    ensures forall i :: 0 <= i < |s| && !drop(s[i]) ==> s[i] in r
  {
    forall i | 0 <= i < |s| && !drop(s[i]) ensures s[i] in r {
      assert d <= i;
      assert l[i - d] == s[i];
      assert i - d < |r|;
      assert r[i - d] == s[i];
    }
  }

  /** A string whose ends are kept is left as it is. */
  lemma TrimByUnchanged(s: string, drop: char -> bool)
    requires s != [] ==> !drop(s[0]) && !drop(s[|s| - 1])
    ensures TrimBy(s, drop) == s
  {
    assert TrimLeftBy(s, drop) == s;
    assert TrimRightBy(s, drop) == s;
  }

  /** Go's `strings.TrimSpace`. */
  function TrimSpace(s: string): (r: string)
    ensures |r| <= |s|
    ensures r != [] ==> !IsSpace(r[0]) && !IsSpace(r[|r| - 1])
  {
    TrimBy(s, IsSpace)
  }

  /** Every character of `s` is one to drop. */
  predicate AllBy(s: string, drop: char -> bool) {
    forall i :: 0 <= i < |s| ==> drop(s[i])
  }

  lemma AllByAppend(x: string, y: string, drop: char -> bool)
    requires AllBy(x, drop) && AllBy(y, drop)
    ensures AllBy(x + y, drop)
  {
    assert forall i :: 0 <= i < |x + y| ==> (x + y)[i] == if i < |x| then x[i] else y[i - |x|];
  }

  /** A dropped prefix in front of a kept character is exactly what the
      left trim removes. */
  lemma {:induction false} TrimLeftByPadded(a: string, t: string, drop: char -> bool)
    requires AllBy(a, drop)
    requires t == [] || !drop(t[0])
    ensures TrimLeftBy(a + t, drop) == t
    decreases |a|
  {
    if a == [] {
      assert a + t == t;
    } else {
      assert (a + t)[0] == a[0];
      assert (a + t)[1..] == a[1..] + t;
      assert forall i :: 0 <= i < |a| - 1 ==> a[1..][i] == a[i + 1];
      TrimLeftByPadded(a[1..], t, drop);
    }
  }

  /** A dropped suffix behind a kept character is exactly what the right
      trim removes. */
  lemma {:induction false} TrimRightByPadded(t: string, b: string, drop: char -> bool)
    requires AllBy(b, drop)
    requires t == [] || !drop(t[|t| - 1])
    ensures TrimRightBy(t + b, drop) == t
    decreases |b|
  {
    if b == [] {
      assert t + b == t;
    } else {
      var s := t + b;
      assert s[|s| - 1] == b[|b| - 1];
      assert s[..|s| - 1] == t + b[..|b| - 1];
      assert forall i :: 0 <= i < |b| - 1 ==> b[..|b| - 1][i] == b[i];
      TrimRightByPadded(t, b[..|b| - 1], drop);
    }
  }

  /** Trimming is determined by its parts: padding `a` and `b` of dropped
      characters around a middle whose ends are kept leaves the middle. */
  lemma TrimByPadded(a: string, m: string, b: string, drop: char -> bool)
    requires AllBy(a, drop) && AllBy(b, drop)
    requires m != [] ==> !drop(m[0]) && !drop(m[|m| - 1])
    ensures TrimBy(a + m + b, drop) == m
  {
    var s := a + m + b;
    if m == [] {
      assert forall i :: 0 <= i < |s| ==> drop(s[i]) by {
        forall i | 0 <= i < |s| ensures drop(s[i]) {
          if i < |a| { assert s[i] == a[i]; } else { assert s[i] == b[i - |a|]; }
        }
      }
      TrimByKeeps(s, drop);
    } else {
      assert s == a + (m + b);
      assert (m + b)[0] == m[0];
      TrimLeftByPadded(a, m + b, drop);
      TrimRightByPadded(m, b, drop);
    }
  }

  /** Any string is its trimmed middle between two runs of dropped
      characters. */
  lemma TrimByParts(s: string, drop: char -> bool) returns (a: string, b: string)
    ensures s == a + TrimBy(s, drop) + b
    ensures AllBy(a, drop) && AllBy(b, drop)
  {
    var l := TrimLeftBy(s, drop);
    a := TrimLeftByPart(s, drop);
    b := TrimRightByPart(l, drop);
    assert s == a + (TrimBy(s, drop) + b);
  }

  /** What the left trim removes is a run of dropped characters. */
  lemma {:induction false} TrimLeftByPart(s: string, drop: char -> bool) returns (a: string)
    ensures s == a + TrimLeftBy(s, drop) && AllBy(a, drop)
    decreases |s|
  {
    if s != [] && drop(s[0]) {
      var rest := TrimLeftByPart(s[1..], drop);
      a := [s[0]] + rest;
      assert s == [s[0]] + s[1..];
      assert forall i :: 1 <= i < |a| ==> a[i] == rest[i - 1];
    } else {
      a := [];
    }
  }

  /** What the right trim removes is a run of dropped characters. */
  lemma {:induction false} TrimRightByPart(s: string, drop: char -> bool) returns (b: string)
    ensures s == TrimRightBy(s, drop) + b && AllBy(b, drop)
    decreases |s|
  {
    if s != [] && drop(s[|s| - 1]) {
      var rest := TrimRightByPart(s[..|s| - 1], drop);
      b := rest + [s[|s| - 1]];
      assert s == s[..|s| - 1] + [s[|s| - 1]];
      assert forall i :: 0 <= i < |rest| ==> b[i] == rest[i];
    } else {
      b := [];
    }
  }

  /** Go's `strings.TrimSuffix(s, suffix)` for a one-character suffix. */
  function TrimSuffixChar(s: string, c: char): (r: string)
    ensures s != [] && s[|s| - 1] == c ==> s == r + [c]
    ensures s == [] || s[|s| - 1] != c ==> r == s
  {
    if s != [] && s[|s| - 1] == c then s[..|s| - 1] else s
  }

  /** Go's `strings.Index(s, string(c))`: -1 when absent. */
  function IndexOf(s: string, c: char): (r: int)
    ensures r == -1 <==> c !in s
    ensures r != -1 ==> 0 <= r < |s| && s[r] == c && c !in s[..r]
    decreases |s|
  {
    if s == [] then -1
    else if s[0] == c then 0
    else
      var k := IndexOf(s[1..], c);
      if k == -1 then -1
      else
        assert s[..k + 1] == [s[0]] + s[1..][..k];
        k + 1
  }

  /** The first occurrence is the one after a prefix free of `c`. */
  lemma IndexOfAfter(x: string, c: char, y: string)
    requires c !in x
    ensures IndexOf(x + [c] + y, c) == |x|
  {
    var s := x + [c] + y;
    var r := IndexOf(s, c);
    assert s[|x|] == c;
    assert s[..|x|] == x;
  }

  /** Go's `strings.Join`. */
  function Join(parts: seq<string>, sep: string): string
    decreases |parts|
  {
    if |parts| == 0 then ""
    else if |parts| == 1 then parts[0]
    else parts[0] + sep + Join(parts[1..], sep)
  }

  /** Joining two non-empty lists puts exactly one separator between them. */
  lemma {:induction false} JoinAppend(a: seq<string>, b: seq<string>, sep: string)
    requires |a| > 0 && |b| > 0
    ensures Join(a + b, sep) == Join(a, sep) + sep + Join(b, sep)
    decreases |a|
  {
    if |a| == 1 {
      assert (a + b)[1..] == b;
    } else {
      assert (a + b)[1..] == a[1..] + b;
      JoinAppend(a[1..], b, sep);
    }
  }

  /** Go's `strings.Split(s, string(c))`: always at least one piece, no
      piece holds the separator, and joining the pieces gives `s` back. */
  function Split(s: string, c: char): (parts: seq<string>)
    ensures |parts| >= 1
    ensures forall i :: 0 <= i < |parts| ==> c !in parts[i]
    ensures Join(parts, [c]) == s
    decreases |s|
  {
    var i := IndexOf(s, c);
    if i == -1 then [s]
    else
      var rest := Split(s[i + 1..], c);
      SplitStep(s, c, i, rest);
      SplitPiecesStep(s[..i], rest, c);
      [s[..i]] + rest
  }

  /** One step of `Split`: the piece before the first separator, then the
      pieces of the rest, join back to the whole. */
  lemma SplitStep(s: string, c: char, i: nat, rest: seq<string>)
    requires i < |s| && s[i] == c
    requires |rest| >= 1 && Join(rest, [c]) == s[i + 1..]
    ensures Join([s[..i]] + rest, [c]) == s
  {
    var p := s[..i];
    JoinAppend([p], rest, [c]);
    assert Join([p], [c]) == p;
    assert s == p + [c] + s[i + 1..];
  }

  /** Putting a separator-free piece in front keeps every piece free of it. */
  lemma SplitPiecesStep(p: string, rest: seq<string>, c: char)
    requires c !in p
    requires forall k :: 0 <= k < |rest| ==> c !in rest[k]
    ensures forall k :: 0 <= k < |rest| + 1 ==> c !in ([p] + rest)[k]
  {
    forall k | 0 <= k < |rest| + 1 ensures c !in ([p] + rest)[k] {
      if k > 0 { assert ([p] + rest)[k] == rest[k - 1]; }
    }
  }

  /** The converse round trip: splitting a join of separator-free pieces
      gives the pieces back. */
  lemma {:induction false} SplitJoin(parts: seq<string>, c: char)
    requires |parts| >= 1
    requires forall i :: 0 <= i < |parts| ==> c !in parts[i]
    ensures Split(Join(parts, [c]), c) == parts
    decreases |parts|
  {
    var s := Join(parts, [c]);
    if |parts| == 1 {
      assert IndexOf(s, c) == -1;
    } else {
      var p := parts[0];
      JoinAppend([p], parts[1..], [c]);
      assert [p] + parts[1..] == parts;
      assert s == p + [c] + Join(parts[1..], [c]);
      assert s[..|p|] == p;
      assert s[|p|] == c;
      assert IndexOf(s, c) == |p|;
      assert s[|p| + 1..] == Join(parts[1..], [c]);
      SplitJoin(parts[1..], c);
    }
  }

  /** Go's `strings.ReplaceAll(s, string(a), string(b))` for single characters. */
  function ReplaceChar(s: string, a: char, b: char): (r: string)
    ensures |r| == |s|
    ensures forall i :: 0 <= i < |s| ==> r[i] == (if s[i] == a then b else s[i])
    decreases |s|
  {
    if s == [] then []
    else [if s[0] == a then b else s[0]] + ReplaceChar(s[1..], a, b)
  }

  /** Number of occurrences of `c` in `s`. */
  function Count(s: string, c: char): nat
    decreases |s|
  {
    if s == [] then 0 else (if s[0] == c then 1 else 0) + Count(s[1..], c)
  }

  lemma {:induction false} CountAppend(a: string, b: string, c: char)
    ensures Count(a + b, c) == Count(a, c) + Count(b, c)
    decreases |a|
  {
    if a == [] {
      assert a + b == b;
    } else {
      assert (a + b)[1..] == a[1..] + b;
      CountAppend(a[1..], b, c);
    }
  }

  lemma {:induction false} CountAbsent(s: string, c: char)
    requires c !in s
    ensures Count(s, c) == 0
    decreases |s|
  {
    if s != [] {
      assert c !in s[1..];
      CountAbsent(s[1..], c);
    }
  }
}
