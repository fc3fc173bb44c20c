/** Text helpers shared by the printers: decimal rendering of `usize` values the way
    Rust's `{}` formats them, and `join` of a list of strings.  Each comes with its
    inverse, which is what the round-trip lemmas of the printers are built on. */
module Strings {

  import opened Wrappers

  predicate IsDigit(c: char) { '0' <= c <= '9' }

  predicate AllDigits(s: string) { forall i :: 0 <= i < |s| ==> IsDigit(s[i]) }

  function DigitChar(d: nat): (c: char)
    requires d < 10
    ensures IsDigit(c)
  {
    "0123456789"[d]
  }

  function DigitValue(c: char): (d: nat)
    requires IsDigit(c)
    ensures d < 10
  {
    c as int - '0' as int
  }

  /** Decimal form of `n`, without leading zeros. */
  function NatToString(n: nat): (s: string)
    ensures |s| >= 1 && AllDigits(s)
    ensures s[0] == '0' ==> n == 0 && s == "0"
    decreases n
  {
    if n < 10 then [DigitChar(n)] else NatToString(n / 10) + [DigitChar(n % 10)]
  }

  /** The value of a string of decimal digits. */
  function ParseDigits(s: string): nat
    requires AllDigits(s)
  {
    if |s| == 0 then 0 else ParseDigits(s[..|s| - 1]) * 10 + DigitValue(s[|s| - 1])
  }

  lemma {:induction false} ParseNatToString(n: nat)
    ensures ParseDigits(NatToString(n)) == n
    decreases n
  {
    if n >= 10 {
      ParseNatToString(n / 10);
      var s := NatToString(n / 10);
      assert NatToString(n)[..|NatToString(n)| - 1] == s;
    }
  }

  /** Different numbers print differently. */
  lemma NatToStringInjective(a: nat, b: nat)
    ensures NatToString(a) == NatToString(b) ==> a == b
  {
    ParseNatToString(a);
    ParseNatToString(b);
  }

  /** Length of the run of digits that starts `s`. */
  function DigitRun(s: string): (k: nat)
    ensures k <= |s|
    ensures AllDigits(s[..k])
    ensures k < |s| ==> !IsDigit(s[k])
  {
    if |s| == 0 || !IsDigit(s[0]) then 0 else 1 + DigitRun(s[1..])
  }

  /** Reads a decimal number at the front of `s`; returns it and the text after it. */
  function ParseNatPrefix(s: string): Option<(nat, string)>
  {
    var k := DigitRun(s);
    if k == 0 then None else Some((ParseDigits(s[..k]), s[k..]))
  }

  lemma {:induction false} DigitRunAppend(d: string, rest: string)
    requires AllDigits(d)
    requires rest == [] || !IsDigit(rest[0])
    ensures DigitRun(d + rest) == |d|
    decreases |d|
  {
    if |d| > 0 {
      assert (d + rest)[1..] == d[1..] + rest;
      DigitRunAppend(d[1..], rest);
    }
  }

  /** A printed number followed by a non-digit reads back as the same number. */
  lemma ParseNatPrefixOf(n: nat, rest: string)
    requires rest == [] || !IsDigit(rest[0])
    ensures ParseNatPrefix(NatToString(n) + rest) == Some((n, rest))
  {
    var d := NatToString(n);
    DigitRunAppend(d, rest);
    assert (d + rest)[..|d|] == d;
    assert (d + rest)[|d|..] == rest;
    ParseNatToString(n);
  }

  /** The text after a fixed prefix, when `s` starts with it. */
  function After(s: string, p: string): (r: Option<string>)
    ensures r.Some? <==> |p| <= |s| && s[..|p|] == p
    ensures r.Some? ==> s == p + r.value
  {
    if |p| <= |s| && s[..|p|] == p then Some(s[|p|..]) else None
  }

  lemma AfterOf(p: string, rest: string)
    ensures After(p + rest, p) == Some(rest)
  {
    assert (p + rest)[..|p|] == p;
    assert (p + rest)[|p|..] == rest;
  }

  /** Each line indented by four spaces, as the code printers write bodies. */
  function Indent(ls: seq<string>): (out: seq<string>)
    ensures |out| == |ls| && forall k :: 0 <= k < |ls| ==> out[k] == "    " + ls[k]
  {
    seq(|ls|, k requires 0 <= k < |ls| => "    " + ls[k])
  }

  /** Rust's `Vec<String>::join(sep)`. */
  function Join(xs: seq<string>, sep: string): string
  {
    if |xs| == 0 then "" else if |xs| == 1 then xs[0] else xs[0] + sep + Join(xs[1..], sep)
  }

  /** The first element of a longer list, the separator, then the rest joined. */
  lemma JoinCons(xs: seq<string>, sep: string, rest: string)
    requires |xs| >= 2
    ensures Join(xs, sep) + rest == xs[0] + (sep + Join(xs[1..], sep) + rest)
  {
  }

  /** Index of the first `c` in `s`, or `|s|` when there is none. */
  function FirstIndex(s: string, c: char): (i: nat)
    ensures i <= |s|
    ensures i < |s| ==> s[i] == c
    ensures forall j :: 0 <= j < i ==> s[j] != c
  {
    if |s| == 0 then 0 else if s[0] == c then 0 else 1 + FirstIndex(s[1..], c)
  }

  /** Cuts `s` at every occurrence of the first character of `sep`, skipping `|sep|`
      characters there: the inverse of `Join` for lists whose elements do not
      contain that character. */
  function Split(s: string, sep: string): (parts: seq<string>)
    requires |sep| > 0
    ensures |parts| > 0
    decreases |s|
  {
    var i := FirstIndex(s, sep[0]);
    if i == |s| then [s]
    else [s[..i]] + Split(s[if i + |sep| <= |s| then i + |sep| else |s|..], sep)
  }

  lemma {:induction false} SplitJoin(xs: seq<string>, sep: string)
    requires |sep| > 0 && |xs| > 0
    requires forall i :: 0 <= i < |xs| ==> sep[0] !in xs[i]
    ensures Split(Join(xs, sep), sep) == xs
    decreases |xs|
  {
    if |xs| == 1 {
      assert FirstIndex(xs[0], sep[0]) == |xs[0]|;
    } else {
      var rest := Join(xs[1..], sep);
      var s := xs[0] + sep + rest;
      assert Join(xs, sep) == s;
      assert s[|xs[0]|] == sep[0];
      assert FirstIndex(s, sep[0]) == |xs[0]|;
      assert s[..|xs[0]|] == xs[0];
      assert s[|xs[0]| + |sep|..] == rest;
      SplitJoin(xs[1..], sep);
      assert [xs[0]] + xs[1..] == xs;
    }
  }

  /** Every character of `Join(xs, sep)` comes from an element or from `sep`. */
  lemma {:induction false} JoinChars(xs: seq<string>, sep: string, c: char)
    requires c !in sep
    requires forall i :: 0 <= i < |xs| ==> c !in xs[i]
    ensures c !in Join(xs, sep)
    decreases |xs|
  {
    if |xs| > 1 {
      JoinChars(xs[1..], sep, c);
    }
  }

  /** The texts one after another. */
  function Concat(ps: seq<string>): string
  {
    if |ps| == 0 then "" else ps[0] + Concat(ps[1..])
  }

  lemma {:induction false} ConcatSnoc(ps: seq<string>, p: string)
    ensures Concat(ps + [p]) == Concat(ps) + p
  {
    if |ps| > 0 {
      assert (ps + [p])[1..] == ps[1..] + [p];
      ConcatSnoc(ps[1..], p);
    }
  }

  lemma {:induction false} ConcatSplit(ps: seq<string>, i: nat)
    requires i <= |ps|
    ensures Concat(ps) == Concat(ps[..i]) + Concat(ps[i..])
  {
    if i > 0 {
      assert ps[1..][..i - 1] == ps[1..i] && ps[1..][i - 1..] == ps[i..];
      ConcatSplit(ps[1..], i - 1);
      assert ps[..i] == [ps[0]] + ps[1..i];
      assert Concat(ps[..i]) == ps[0] + Concat(ps[1..i]) by {
        assert ps[..i][1..] == ps[1..i];
      }
    } else {
      assert ps[i..] == ps;
    }
  }

  /** `writeln!` of each line, in order. */
  function Lines(ls: seq<string>): string
  {
    if |ls| == 0 then "" else ls[0] + "\n" + Lines(ls[1..])
  }

  /** `Lines` is a join on `'\n'` with a final newline. */
  lemma {:induction false} LinesIsJoin(ls: seq<string>)
    ensures Lines(ls) == Join(ls + [""], "\n")
    decreases |ls|
  {
    if |ls| > 0 {
      LinesIsJoin(ls[1..]);
      assert (ls + [""])[1..] == ls[1..] + [""];
    }
  }

  /** `xs` stands in `ls` from index `o` on, line by line. */
  predicate Placed(ls: seq<string>, o: nat, xs: seq<string>)
    decreases |xs|
  {
    if |xs| == 0 then o <= |ls| else o < |ls| && ls[o] == xs[0] && Placed(ls, o + 1, xs[1..])
  }

  lemma {:induction false} PlacedSlice(ls: seq<string>, o: nat, xs: seq<string>)
    ensures Placed(ls, o, xs) <==> o + |xs| <= |ls| && ls[o..o + |xs|] == xs
    decreases |xs|
  {
    if |xs| > 0 {
      PlacedSlice(ls, o + 1, xs[1..]);
      if o + |xs| <= |ls| {
        assert ls[o..o + |xs|] == [ls[o]] + ls[o + 1..o + |xs|];
        assert xs == [xs[0]] + xs[1..];
      }
    }
  }

  lemma PlacedFront(x: seq<string>, t: seq<string>)
    ensures Placed(x + t, 0, x) && Placed(x + t, |x|, t)
  {
    PlacedSlice(x + t, 0, x);
    PlacedSlice(x + t, |x|, t);
  }

  lemma PlacedShift(x: seq<string>, t: seq<string>, o: nat, xs: seq<string>)
    requires Placed(t, o, xs)
    ensures Placed(x + t, |x| + o, xs)
  {
    PlacedSlice(t, o, xs);
    PlacedSlice(x + t, |x| + o, xs);
    assert (x + t)[|x| + o..|x| + o + |xs|] == t[o..o + |xs|];
  }

  /** Appending a line keeps everything where it was, and adds it to a part that
      ran to the end. */
  lemma PlacedSnoc(ls: seq<string>, o: nat, xs: seq<string>, y: string)
    requires Placed(ls, o, xs)
    ensures Placed(ls + [y], o, xs)
    ensures o + |xs| == |ls| ==> Placed(ls + [y], o, xs + [y])
  {
    PlacedSlice(ls, o, xs);
    PlacedSlice(ls + [y], o, xs);
    PlacedSlice(ls + [y], o, xs + [y]);
    assert (ls + [y])[o..o + |xs|] == ls[o..o + |xs|];
  }

  lemma PlacedSnocAt(ls: seq<string>, o: nat, xs: seq<string>, y: string, o': nat)
    requires Placed(ls, o, xs) && o == o'
    ensures Placed(ls + [y], o', xs)
  {
    PlacedSnoc(ls, o, xs, y);
  }

  lemma PlacedIndex(ls: seq<string>, o: nat, xs: seq<string>, k: nat)
    requires Placed(ls, o, xs) && k < |xs|
    ensures o + k < |ls| && ls[o + k] == xs[k]
  {
    PlacedSlice(ls, o, xs);
    assert ls[o + k] == ls[o..o + |xs|][k];
  }
}
