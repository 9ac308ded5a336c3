/** Text helpers shared by the scaffold classifier, the change log and the
    FASTA writer: splitting a string on a separator character the way Rust's
    `str::split` does, joining pieces back, and the decimal and boolean
    renderings that Rust's `Display` gives `usize` and `bool`. */
module Text {

  datatype Option<T> = None | Some(value: T)

  /** The pieces of `s` between occurrences of `sep`, in order, as `s.split(sep)`
      yields them: always one more piece than there are separators, and an
      empty piece wherever two separators touch or `s` starts or ends with one.
      The last piece is the text after the last separator. */
  function Split(s: string, sep: char): (r: seq<string>)
    ensures |r| >= 1
  {
    if s == [] then [""] else Extend(Split(s[..|s| - 1], sep), s[|s| - 1], sep)
  }

  /** The pieces after one more character `c`: a separator opens a new, empty
      piece; any other character lengthens the last piece. */
  function Extend(pieces: seq<string>, c: char, sep: char): (r: seq<string>)
    requires |pieces| >= 1
    ensures |r| >= 1
  {
    if c == sep then pieces + [""] else pieces[..|pieces| - 1] + [pieces[|pieces| - 1] + [c]]
  }

  lemma SplitSnoc(front: string, c: char, sep: char)
    ensures Split(front + [c], sep) == Extend(Split(front, sep), c, sep)
  {
    assert (front + [c])[..|front|] == front;
  }

  lemma ExtendAppend(pa: seq<string>, pb: seq<string>, c: char, sep: char)
    requires |pb| >= 1
    ensures Extend(pa + pb, c, sep) == pa + Extend(pb, c, sep)
  {
    var p := pa + pb;
    if c != sep {
      assert p[..|p| - 1] == pa + pb[..|pb| - 1];
    }
  }

  /** The last piece of a split is the text after the last separator: no
      separator occurs in it, it ends `s`, and when `s` holds a separator the
      character just before it is one; a string without separators is its
      own only piece. */
  lemma {:induction false} SplitLast(s: string, sep: char)
    ensures var r := Split(s, sep); var last := r[|r| - 1];
      && sep !in last
      && |last| <= |s| && s[|s| - |last|..] == last
      && (sep in s ==> |last| < |s| && s[|s| - |last| - 1] == sep)
      && (sep !in s ==> r == [s])
  {
    if s != [] {
      var front := s[..|s| - 1];
      var c := s[|s| - 1];
      assert s == front + [c];
      SplitLast(front, sep);
      SplitSnoc(front, c, sep);
      assert Split(s, sep) == Extend(Split(front, sep), c, sep);
      if c != sep {
        ExtendLast(front, Split(front, sep), c, sep);
      } else {
        assert Split(s, sep)[|Split(s, sep)| - 1] == "";
        assert sep in s && s[|s| - 1] == sep;
      }
    }
  }

  lemma ExtendLast(front: string, init: seq<string>, c: char, sep: char)
    requires |init| >= 1 && c != sep
    requires var last := init[|init| - 1];
      && sep !in last
      && |last| <= |front| && front[|front| - |last|..] == last
      && (sep in front ==> |last| < |front| && front[|front| - |last| - 1] == sep)
      && (sep !in front ==> init == [front])
    ensures var s := front + [c]; var r := Extend(init, c, sep); var last := r[|r| - 1];
      && sep !in last
      && |last| <= |s| && s[|s| - |last|..] == last
      && (sep in s ==> |last| < |s| && s[|s| - |last| - 1] == sep)
      && (sep !in s ==> r == [s])
  {
    var s := front + [c];
    var last := init[|init| - 1];
    assert Extend(init, c, sep)[|init| - 1] == last + [c];
    assert sep in s ==> sep in front;
    assert s[|s| - |last| - 1..] == front[|front| - |last|..] + [c];
  }

  /** The pieces joined back together with `sep` between neighbours. */
  function Join(parts: seq<string>, sep: char): string
    requires |parts| >= 1
  {
    if |parts| == 1 then parts[0]
    else Join(parts[..|parts| - 1], sep) + [sep] + parts[|parts| - 1]
  }

  lemma JoinExtend(parts: seq<string>, c: char, sep: char)
    requires |parts| >= 1
    ensures Join(Extend(parts, c, sep), sep) == Join(parts, sep) + [c]
  {
    var k := |parts| - 1;
    var q := Extend(parts, c, sep);
    if c == sep {
      assert q == parts + [""];
      assert q[..|parts|] == parts;
      assert Join(q, sep) == Join(parts, sep) + [sep] + "";
    } else if k == 0 {
      assert q == [parts[0] + [c]];
    } else {
      assert q == parts[..k] + [parts[k] + [c]];
      assert q[..k] == parts[..k];
      assert Join(q, sep) == Join(parts[..k], sep) + [sep] + (parts[k] + [c]);
    }
  }

  /** Joining the pieces of a split gives the string back. */
  lemma {:induction false} SplitJoin(s: string, sep: char)
    ensures Join(Split(s, sep), sep) == s
  {
    if s != [] {
      var front := s[..|s| - 1];
      var c := s[|s| - 1];
      assert s == front + [c];
      SplitJoin(front, sep);
      SplitSnoc(front, c, sep);
      JoinExtend(Split(front, sep), c, sep);
    }
  }

  /** Splitting at a separator splits the two sides independently. */
  lemma {:induction false} SplitAppend(a: string, b: string, sep: char)
    ensures Split(a + [sep] + b, sep) == Split(a, sep) + Split(b, sep)
    decreases |b|
  {
    if b == [] {
      assert a + [sep] + b == a + [sep];
      SplitSnoc(a, sep, sep);
      assert Split(b, sep) == [""];
    } else {
      var front := b[..|b| - 1];
      var c := b[|b| - 1];
      assert b == front + [c];
      assert a + [sep] + b == (a + [sep] + front) + [c];
      SplitAppend(a, front, sep);
      SplitSnoc(a + [sep] + front, c, sep);
      SplitSnoc(front, c, sep);
      ExtendAppend(Split(a, sep), Split(front, sep), c, sep);
    }
  }

  /** Splitting pieces that hold no separator after joining them gives the pieces back. */
  lemma {:induction false} JoinSplit(parts: seq<string>, sep: char)
    requires |parts| >= 1
    requires forall k :: 0 <= k < |parts| ==> sep !in parts[k]
    ensures Split(Join(parts, sep), sep) == parts
  {
    if |parts| > 1 {
      var init := parts[..|parts| - 1];
      var last := parts[|parts| - 1];
      assert forall k :: 0 <= k < |init| ==> init[k] == parts[k];
      JoinSplit(init, sep);
      assert Join(parts, sep) == Join(init, sep) + [sep] + last;
      SplitAppend(Join(init, sep), last, sep);
      SplitWithoutSeparator(last, sep);
      assert init + [last] == parts;
    } else {
      SplitWithoutSeparator(parts[0], sep);
    }
  }

  lemma SplitWithoutSeparator(s: string, sep: char)
    requires sep !in s
    ensures Split(s, sep) == [s]
  {
    SplitLast(s, sep);
  }

  lemma Assoc<T>(a: seq<T>, b: seq<T>, c: seq<T>)
    ensures a + b + c == a + (b + c)
  {
  }

  /** Rust's `Display` for `bool`. */
  function BoolToString(b: bool): string {
    if b then "true" else "false"
  }

  predicate IsDigit(c: char) {
    '0' <= c <= '9'
  }

  predicate AllDigits(s: string) {
    forall k :: 0 <= k < |s| ==> IsDigit(s[k])
  }

  function Digit(d: nat): (c: char)
    requires d < 10
    ensures IsDigit(c) && c as int - '0' as int == d
  {
    (d + '0' as int) as char
  }

  /** Rust's `Display` for `usize`: decimal digits without leading zeros. */
  function NatToString(n: nat): (r: string)
    ensures |r| >= 1 && AllDigits(r)
    ensures |r| > 1 ==> r[0] != '0'
  {
    if n < 10 then [Digit(n)] else NatToString(n / 10) + [Digit(n % 10)]
  }

  /** The value of a string of decimal digits. */
  function ParseNat(s: string): nat
    requires AllDigits(s)
  {
    if s == [] then 0 else ParseNat(s[..|s| - 1]) * 10 + (s[|s| - 1] as int - '0' as int)
  }

  lemma {:induction false} ParseNatToString(n: nat)
    ensures ParseNat(NatToString(n)) == n
  {
    if n >= 10 {
      ParseNatToString(n / 10);
      var r := NatToString(n);
      assert r[..|r| - 1] == NatToString(n / 10);
    }
  }

  /** `line` with `prefix` removed, if it starts with `prefix`. */
  function StripPrefix(line: string, prefix: string): (r: Option<string>)
    ensures r.Some? <==> |prefix| <= |line| && line[..|prefix|] == prefix
    ensures r.Some? ==> line == prefix + r.value
  {
    if |prefix| <= |line| && line[..|prefix|] == prefix then Some(line[|prefix|..]) else None
  }

  /** Reads back a `usize` rendered by `NatToString`. */
  function ParseDecimal(s: string): Option<nat> {
    if |s| >= 1 && AllDigits(s) then Some(ParseNat(s)) else None
  }

  /** Every rendered number reads back as itself. */
  lemma DecimalRoundTrip(n: nat)
    ensures ParseDecimal(NatToString(n)) == Some(n)
  {
    ParseNatToString(n);
  }

  function ParseBool(s: string): (r: Option<bool>)
    ensures r.Some? ==> BoolToString(r.value) == s
  {
    if s == "true" then Some(true) else if s == "false" then Some(false) else None
  }
}
