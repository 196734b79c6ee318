/** String operations the handlers use: `split`/`join` on one separator
    character and the decimal rendering of integers in template literals. */
module Text {

  /** `s.split(c)` for a one-character separator: the pieces between separators.
      Like JavaScript, it always returns at least one piece ("" splits into [""]). */
  function Split(s: string, c: char): (r: seq<string>)
    ensures |r| >= 1
    decreases |s|
  {
    if s == [] then [[]]
    else if s[0] == c then [[]] + Split(s[1..], c)
    else
      var rest := Split(s[1..], c);
      [[s[0]] + rest[0]] + rest[1..]
  }

  /** `parts.join(c)` for a one-character separator. */
  function Join(parts: seq<string>, c: char): string
    decreases |parts|
  {
    if |parts| == 0 then []
    else if |parts| == 1 then parts[0]
    else parts[0] + [c] + Join(parts[1..], c)
  }

  /** No piece contains the separator. */
  predicate NoSeparator(parts: seq<string>, c: char)
  {
    forall i :: 0 <= i < |parts| ==> c !in parts[i]
  }

  /** The pieces of a split never contain the separator. */
  lemma {:induction false} SplitPiecesHaveNoSeparator(s: string, c: char)
    ensures NoSeparator(Split(s, c), c)
    decreases |s|
  {
    if s != [] {
      SplitPiecesHaveNoSeparator(s[1..], c);
      var rest := Split(s[1..], c);
      if s[0] != c {
        assert Split(s, c) == [[s[0]] + rest[0]] + rest[1..];
        forall i | 0 <= i < |Split(s, c)| ensures c !in Split(s, c)[i] {
          if i > 0 { assert Split(s, c)[i] == rest[i]; }
        }
      }
    }
  }

  /** Joining the pieces of a split gives back the string. */
  lemma {:induction false} JoinSplit(s: string, c: char)
    ensures Join(Split(s, c), c) == s
    decreases |s|
  {
    if s != [] {
      JoinSplit(s[1..], c);
      var rest := Split(s[1..], c);
      if s[0] == c {
        assert Split(s, c) == [[]] + rest;
        assert (Split(s, c))[1..] == rest;
      } else {
        var r := Split(s, c);
        assert r == [[s[0]] + rest[0]] + rest[1..];
        if |rest| == 1 {
          assert Join(r, c) == [s[0]] + rest[0];
        } else {
          assert r[1..] == rest[1..];
          assert Join(r, c) == [s[0]] + rest[0] + [c] + Join(rest[1..], c);
          assert Join(rest, c) == rest[0] + [c] + Join(rest[1..], c);
        }
      }
    }
  }

  /** Splitting a join of separator-free pieces gives back the pieces. */
  lemma {:induction false} SplitJoin(parts: seq<string>, c: char)
    requires |parts| >= 1 && NoSeparator(parts, c)
    ensures Split(Join(parts, c), c) == parts
    decreases |parts|
  {
    if |parts| == 1 {
      SplitPlain(parts[0], c, []);
      assert parts[0] + [] == parts[0];
    } else {
      assert NoSeparator(parts[1..], c) by {
        forall i | 0 <= i < |parts[1..]| ensures c !in parts[1..][i] { assert parts[1..][i] == parts[i + 1]; }
      }
      SplitJoin(parts[1..], c);
      var t := Join(parts[1..], c);
      assert c !in parts[0];
      SplitPlain(parts[0], c, [c] + t);
      assert Join(parts, c) == parts[0] + ([c] + t);
      assert ([c] + t)[0] == c;
      assert ([c] + t)[1..] == t;
      assert Split([c] + t, c) == [[]] + parts[1..];
      assert Split(Join(parts, c), c) == [parts[0] + []] + parts[1..];
      assert parts[0] + [] == parts[0];
    }
  }

  /** Splitting `w + t`, where `w` holds no separator, glues `w` onto the first piece of `t`. */
  lemma {:induction false} SplitPlain(w: string, c: char, t: string)
    requires c !in w
    ensures Split(w + t, c) == [w + Split(t, c)[0]] + Split(t, c)[1..]
    decreases |w|
  {
    if w == [] {
      assert w + t == t;
      var r := Split(t, c);
      assert [] + r[0] == r[0];
      assert r == [r[0]] + r[1..];
    } else {
      assert w[0] != c;
      assert (w + t)[0] == w[0];
      assert (w + t)[1..] == w[1..] + t;
      SplitPlain(w[1..], c, t);
      var rest := Split(w[1..] + t, c);
      assert rest == [w[1..] + Split(t, c)[0]] + Split(t, c)[1..];
      assert Split(w + t, c) == [[w[0]] + rest[0]] + rest[1..];
      assert [w[0]] + (w[1..] + Split(t, c)[0]) == w + Split(t, c)[0];
    }
  }

  /** Joining the first `k` pieces gives a prefix of the whole join. */
  lemma {:induction false} JoinTakeIsPrefix(parts: seq<string>, c: char, k: nat)
    requires k <= |parts|
    ensures Join(parts[..k], c) <= Join(parts, c)
    decreases |parts|
  {
    if k >= 1 && |parts| >= 2 {
      if k == 1 {
        assert parts[..1] == [parts[0]];
      } else {
        JoinTakeIsPrefix(parts[1..], c, k - 1);
        assert parts[..k][1..] == parts[1..][..k - 1];
        assert Join(parts[..k], c) == parts[0] + [c] + Join(parts[1..][..k - 1], c);
      }
    }
  }

  /** The decimal digit of a value below ten. */
  function Digit(d: nat): (r: char)
    requires d < 10
    ensures '0' <= r <= '9' && r as int - '0' as int == d
  {
    (d + '0' as int) as char
  }

  /** The decimal rendering of a natural number, as `${n}` produces it. */
  function NatToString(n: nat): (r: string)
    ensures |r| >= 1
    ensures forall i :: 0 <= i < |r| ==> '0' <= r[i] <= '9'
  {
    if n < 10 then [Digit(n)] else NatToString(n / 10) + [Digit(n % 10)]
  }

  /** The decimal rendering of an integer, with a leading '-' when negative. */
  function IntToString(i: int): (r: string)
    ensures |r| >= 1
    ensures i < 0 <==> r[0] == '-'
  {
    if i < 0 then "-" + NatToString(-i) else NatToString(i)
  }

  /** The value of a non-empty string of decimal digits. */
  function ParseNat(s: string): nat
    requires forall i :: 0 <= i < |s| ==> '0' <= s[i] <= '9'
  {
    if s == [] then 0 else 10 * ParseNat(s[..|s| - 1]) + (s[|s| - 1] as int - '0' as int)
  }

  /** Reading the digits back gives the number: the rendering is the decimal one
      and distinct numbers render differently. */
  lemma {:induction false} ParseNatToString(n: nat)
    ensures ParseNat(NatToString(n)) == n
  {
    if n >= 10 {
      ParseNatToString(n / 10);
      var s := NatToString(n);
      assert s[..|s| - 1] == NatToString(n / 10);
    }
  }

  lemma NegativeRendering(i: int)
    requires i < 0
    ensures IntToString(i)[1..] == NatToString(-i)
  {
    var d := NatToString(-i);
    assert ("-" + d)[1..] == d;
  }

  /** Distinct integers render to distinct strings. */
  lemma {:induction false} IntToStringInjective(i: int, j: int)
    requires IntToString(i) == IntToString(j)
    ensures i == j
  {
    var a, b := if i < 0 then -i else i, if j < 0 then -j else j;
    assert (i < 0) == (j < 0);
    if i < 0 {
      NegativeRendering(i);
      NegativeRendering(j);
    }
    assert NatToString(a) == NatToString(b);
    ParseNatToString(a);
    ParseNatToString(b);
  }
}
