/** The slice of Python's `str`/`int` built-ins the record formats rely on:
    `str(i)` and `int(s)` for base-10 integers, `s.split(c)` and `c.join(parts)`
    for a one-character separator. */
module Text {
  import opened Wrappers

  predicate IsDigit(ch: char) { '0' <= ch <= '9' }

  function DigitChar(d: nat): (ch: char)
    requires d < 10
    ensures IsDigit(ch)
  {
    "0123456789"[d]
  }

  function DigitValue(ch: char): (d: nat)
    requires IsDigit(ch)
    ensures d < 10 && DigitChar(d) == ch
  {
    (ch as int - '0' as int) as nat
  }

  /** `str(n)` for a non-negative integer: most significant digit first, no
      leading zeros. */
  function NatToStr(n: nat): (s: string)
    ensures |s| > 0 && forall k :: 0 <= k < |s| ==> IsDigit(s[k])
    decreases n
  {
    if n < 10 then [DigitChar(n)] else NatToStr(n / 10) + [DigitChar(n % 10)]
  }

  /** `str(i)`: a minus sign for negative integers, then the digits. */
  function IntToStr(i: int): string {
    if i < 0 then "-" + NatToStr(-i) else NatToStr(i)
  }

  /** The ASCII whitespace `int` ignores around its argument: tab to
      carriage return (0x09 to 0x0D) and the space. The separators 0x1C to
      0x1F, which `str.isspace` accepts, are not among them. */
  predicate IsSpace(ch: char) {
    ch == ' ' || 9 <= ch as int <= 13
  }

  /** `s` without its leading whitespace. */
  function TrimLeft(s: string): (t: string)
    ensures |t| <= |s| && (|t| > 0 ==> !IsSpace(t[0]))
    decreases |s|
  {
    if |s| > 0 && IsSpace(s[0]) then TrimLeft(s[1..]) else s
  }

  /** `s` without its trailing whitespace. */
  function TrimRight(s: string): (t: string)
    ensures |t| <= |s| && (|t| > 0 ==> !IsSpace(t[|t| - 1]))
    decreases |s|
  {
    if |s| > 0 && IsSpace(s[|s| - 1]) then TrimRight(s[..|s| - 1]) else s
  }

  /** `s.strip()`, as `int` applies it. */
  function Strip(s: string): string {
    TrimRight(TrimLeft(s))
  }

  /** The value of a non-empty run of decimal digits in which single
      underscores may separate two digits (`1_000`); `None` for anything
      else, so a leading, trailing or doubled underscore is refused. */
  function ParseNat(s: string): Option<nat>
    decreases |s|
  {
    if |s| == 0 || !IsDigit(s[|s| - 1]) then None
    else if |s| == 1 then Some(DigitValue(s[0]))
    else
      var init := s[..|s| - 1];
      var digits := if init[|init| - 1] == '_' then init[..|init| - 1] else init;
      match ParseNat(digits)
      case None => None
      case Some(n) => Some(n * 10 + DigitValue(s[|s| - 1]))
  }

  /** An optional sign, then digits. */
  function ParseSigned(s: string): Option<int> {
    if |s| > 0 && (s[0] == '-' || s[0] == '+') then
      match ParseNat(s[1..])
      case None => None
      case Some(n) => Some(if s[0] == '-' then -(n as int) else n as int)
    else
      match ParseNat(s)
      case None => None
      case Some(n) => Some(n)
  }

  /** `int(s)` on a string: whitespace around the number is ignored, then an
      optional sign and decimal digits with single underscores between them;
      `None` where Python raises `ValueError`. */
  function ParseInt(s: string): Option<int> {
    ParseSigned(Strip(s))
  }

  lemma {:induction false} ParseNatToStr(n: nat)
    ensures |NatToStr(n)| > 0 && IsDigit(NatToStr(n)[0])
    ensures ParseNat(NatToStr(n)) == Some(n)
    decreases n
  {
    if n >= 10 {
      var q, d := n / 10, n % 10;
      ParseNatToStr(q);
      var s := NatToStr(n);
      var init := NatToStr(q);
      assert s == init + [DigitChar(d)];
      assert s[..|s| - 1] == init;
      assert IsDigit(init[|init| - 1]);
      assert s[0] == init[0];
      assert DigitValue(s[|s| - 1]) == d;
      assert n == q * 10 + d;
    }
  }

  /** A string that neither starts nor ends with whitespace is its own strip. */
  lemma StripUnpadded(s: string)
    requires |s| > 0 && !IsSpace(s[0]) && !IsSpace(s[|s| - 1])
    ensures Strip(s) == s
  {
  }

  /** `int(str(i)) == i` for every integer. */
  lemma ParseIntToStr(i: int)
    ensures ParseInt(IntToStr(i)) == Some(i)
  {
    ParseNatToStr(if i < 0 then -i else i);
    var s := IntToStr(i);
    if i < 0 {
      assert s[1..] == NatToStr(-i);
      assert s[|s| - 1] == NatToStr(-i)[|NatToStr(-i)| - 1];
    }
    StripUnpadded(s);
  }

  /** Whitespace before the text is dropped, as by `lstrip`. */
  lemma {:induction false} TrimLeftPadded(pad: string, s: string)
    requires forall k :: 0 <= k < |pad| ==> IsSpace(pad[k])
    ensures TrimLeft(pad + s) == TrimLeft(s)
    decreases |pad|
  {
    if |pad| > 0 {
      assert (pad + s)[1..] == pad[1..] + s;
      TrimLeftPadded(pad[1..], s);
    } else {
      assert pad + s == s;
    }
  }

  /** Whitespace after the text is dropped, as by `rstrip`. */
  lemma {:induction false} TrimRightPadded(s: string, pad: string)
    requires forall k :: 0 <= k < |pad| ==> IsSpace(pad[k])
    ensures TrimRight(s + pad) == TrimRight(s)
    decreases |pad|
  {
    if |pad| > 0 {
      assert (s + pad)[..|s + pad| - 1] == s + pad[..|pad| - 1];
      TrimRightPadded(s, pad[..|pad| - 1]);
    } else {
      assert s + pad == s;
    }
  }

  /** Left-stripping text that does not start with whitespace leaves any
      text after it alone. */
  lemma TrimLeftAppend(s: string, t: string)
    requires |s| > 0 && !IsSpace(s[0])
    ensures TrimLeft(s + t) == s + t
  {
  }

  /** `int` reads the same number however much whitespace surrounds its text. */
  lemma ParseIntPadded(before: string, s: string, after: string)
    requires forall k :: 0 <= k < |before| ==> IsSpace(before[k])
    requires forall k :: 0 <= k < |after| ==> IsSpace(after[k])
    ensures ParseInt(before + s + after) == ParseInt(s)
  {
    TrimLeftPadded(before, s + after);
    assert before + s + after == before + (s + after);
    var t := TrimLeft(s);
    if |t| == 0 {
      // `s` is all whitespace, and so is everything after `before`.
      TrimLeftSpaces(s, after);
      assert TrimLeft(s + after) == "";
    } else {
      TrimLeftKeepsTail(s, after);
      assert TrimLeft(s + after) == t + after;
      TrimRightPadded(t, after);
    }
  }

  /** Left-stripping all-whitespace text followed by more whitespace leaves
      nothing. */
  lemma {:induction false} TrimLeftSpaces(s: string, after: string)
    requires TrimLeft(s) == ""
    requires forall k :: 0 <= k < |after| ==> IsSpace(after[k])
    ensures TrimLeft(s + after) == ""
    decreases |s|
  {
    if |s| > 0 {
      assert (s + after)[1..] == s[1..] + after;
      TrimLeftSpaces(s[1..], after);
    } else {
      assert s + after == after;
      TrimLeftPadded(after, "");
      assert after + "" == after;
    }
  }

  /** Left-stripping text with something besides whitespace in it keeps
      whatever follows. */
  lemma {:induction false} TrimLeftKeepsTail(s: string, after: string)
    requires |TrimLeft(s)| > 0
    ensures TrimLeft(s + after) == TrimLeft(s) + after
    decreases |s|
  {
    if IsSpace(s[0]) {
      assert (s + after)[1..] == s[1..] + after;
      TrimLeftKeepsTail(s[1..], after);
    } else {
      TrimLeftAppend(s, after);
    }
  }

  /** What `int` accepts beyond a bare run of digits: whitespace around it
      and underscores between digits. */
  lemma ParseIntAccepts()
    ensures ParseInt(" 5\n") == Some(5)
    ensures ParseInt("-1_0") == Some(-10)
  {
    assert Strip(" 5\n") == "5";
    assert ParseNat("1_0") == Some(10) by {
      assert "1_0"[..2] == "1_" && "1_"[..1] == "1";
    }
    assert "-1_0"[1..] == "1_0";
  }

  /** What `int` still refuses: a doubled, leading or trailing underscore, a
      space after the sign, text that is only whitespace, and padding with
      the separators 0x1C to 0x1F. */
  lemma ParseIntRefuses()
    ensures ParseInt("1__0") == None && ParseInt("_1") == None && ParseInt("1_") == None
    ensures ParseInt("- 5") == None && ParseInt(" ") == None
    ensures ParseInt("\U{1c}5") == None && ParseInt("5\U{1f}") == None
  {
    assert ParseNat("1__0") == None by {
      assert "1__0"[..3] == "1__" && "1__"[..2] == "1_";
    }
    assert ParseNat("_1") == None by {
      assert "_1"[..1] == "_" && "_"[..0] == "";
    }
    assert ParseSigned("- 5") == None by {
      assert "- 5"[1..] == " 5";
      assert " 5"[..1] == " ";
    }
    assert Strip(" ") == "";
  }

  /** `s.split(c)`: the maximal runs between separators; always at least one
      segment, so `"".split(c) == [""]`. */
  function Split(s: string, c: char): (parts: seq<string>)
    ensures |parts| >= 1
    decreases |s|
  {
    if |s| == 0 then [""]
    else
      var rest := Split(s[1..], c);
      if s[0] == c then [""] + rest else [[s[0]] + rest[0]] + rest[1..]
  }

  /** `c.join(parts)`. */
  function Join(parts: seq<string>, c: char): string
    decreases |parts|
  {
    if |parts| == 0 then ""
    else if |parts| == 1 then parts[0]
    else parts[0] + [c] + Join(parts[1..], c)
  }

  lemma {:induction false} SplitNoSeparator(p: string, c: char)
    requires c !in p
    ensures Split(p, c) == [p]
    decreases |p|
  {
    if |p| > 0 {
      SplitNoSeparator(p[1..], c);
      assert [p[0]] + p[1..] == p;
    }
  }

  lemma {:induction false} SplitAfterSegment(p: string, c: char, rest: string)
    requires c !in p
    ensures Split(p + [c] + rest, c) == [p] + Split(rest, c)
    decreases |p|
  {
    if |p| == 0 {
      assert p + [c] + rest == [c] + rest;
      assert ([c] + rest)[1..] == rest;
    } else {
      SplitAfterSegment(p[1..], c, rest);
      assert (p + [c] + rest)[1..] == p[1..] + [c] + rest;
      assert [p[0]] + p[1..] == p;
    }
  }

  /** Splitting a join recovers the parts when no part contains the separator. */
  lemma {:induction false} SplitJoin(parts: seq<string>, c: char)
    requires |parts| >= 1
    requires forall i :: 0 <= i < |parts| ==> c !in parts[i]
    ensures Split(Join(parts, c), c) == parts
    decreases |parts|
  {
    if |parts| == 1 {
      SplitNoSeparator(parts[0], c);
    } else {
      SplitJoin(parts[1..], c);
      SplitAfterSegment(parts[0], c, Join(parts[1..], c));
      assert [parts[0]] + parts[1..] == parts;
    }
  }

  /** No segment of a split holds the separator, and joining the segments
      gives back the string. */
  lemma JoinSplit(s: string, c: char)
    ensures forall i :: 0 <= i < |Split(s, c)| ==> c !in Split(s, c)[i]
    ensures Join(Split(s, c), c) == s
  {
    SplitSegmentsFree(s, c);
    JoinOfSplit(s, c);
  }

  lemma {:induction false} SplitSegmentsFree(s: string, c: char)
    ensures forall i :: 0 <= i < |Split(s, c)| ==> c !in Split(s, c)[i]
    decreases |s|
  {
    if |s| > 0 {
      SplitSegmentsFree(s[1..], c);
      var rest := Split(s[1..], c);
      var parts := Split(s, c);
      forall i | 0 <= i < |parts|
        ensures c !in parts[i]
      {
        if s[0] == c {
          assert parts == [""] + rest;
          if i > 0 {
            assert parts[i] == rest[i - 1];
          }
        } else {
          assert parts == [[s[0]] + rest[0]] + rest[1..];
          if i > 0 {
            assert parts[i] == rest[i];
          }
        }
      }
    }
  }

  lemma {:induction false} JoinOfSplit(s: string, c: char)
    ensures Join(Split(s, c), c) == s
    decreases |s|
  {
    if |s| > 0 {
      JoinOfSplit(s[1..], c);
      var rest := Split(s[1..], c);
      if s[0] == c {
        assert Join([""] + rest, c) == "" + [c] + Join(rest, c);
      } else {
        var parts := [[s[0]] + rest[0]] + rest[1..];
        if |rest| == 1 {
          assert Join(parts, c) == [s[0]] + rest[0];
        } else {
          assert Join(rest, c) == rest[0] + [c] + Join(rest[1..], c);
          assert parts[1..] == rest[1..];
        }
      }
      assert [s[0]] + s[1..] == s;
    }
  }
}
