/** The printer and the scanner, user/lib/stdio.c. Strings come without their final zero. */
module Stdio {
  import opened Numbers
  import opened Formats

  /** Copies `s` to `buffer[n..]`. */
  method Put(buffer: array<char>, n: nat, s: seq<char>) returns (end: nat)
    requires n + |s| <= buffer.Length
    modifies buffer
    ensures end == n + |s| && buffer[n..end] == s
    ensures buffer[..n] == old(buffer[..n]) && buffer[end..] == old(buffer[end..])
  {
    var k := 0;
    while k < |s|
      invariant k <= |s| && buffer[n..n + k] == s[..k]
      invariant buffer[..n] == old(buffer[..n]) && buffer[n + |s|..] == old(buffer[n + |s|..])
    {
      buffer[n + k] := s[k];
      k := k + 1;
    }
    end := n + |s|;
  }

  /** The digits of `%d`, written from the back of a buffer of their own. */
  method FormatInt(i: int) returns (s: seq<char>)
    requires -INT_BOUND < i < INT_BOUND
    ensures s == Decimal(i)
  {
    var tmp := new char[128];
    var pos := 127;
    var v := if i < 0 then -i else i;
    ghost var n := v;
    DigitsFit(n);
    while pos == 127 || v > 0
      invariant 0 <= v && 0 <= pos <= 127 && (pos == 127 ==> v == n)
      invariant pos < 127 ==> Digits(n) == (if v > 0 then Digits(v) else []) + tmp[pos..127]
      decreases pos
    {
      ghost var t := tmp[pos..127];
      pos := pos - 1;
      tmp[pos] := Digit(v % 10);
      assert tmp[pos..127] == [Digit(v % 10)] + t;
      assert Digits(v) == (if v / 10 > 0 then Digits(v / 10) else []) + [Digit(v % 10)];
      v := v / 10;
    }
    ghost var t := tmp[pos..127];
    if i < 0 {
      pos := pos - 1;
      tmp[pos] := '-';
      assert tmp[pos..127] == ['-'] + t;
    }
    s := tmp[pos..127];
  }

  lemma DigitsFit(n: nat)
    requires n < INT_BOUND
    ensures |Digits(n)| <= 10
  {
    assert Pow10(10) == 10000000000;
    LengthOfDigits(n, 10);
  }

  /** One round of the loop of `vsprintf`: the text for one character or conversion of the format. */
  method PrintNext(format: seq<char>, f: nat, list: seq<Arg>, a: nat) returns (text: seq<char>, f': nat, a': nat)
    requires f < |format| && a <= |list| && Complete(format[f..]) && Matches(format[f..], list[a..])
    ensures f < f' <= |format| && a' <= |list| && Complete(format[f'..]) && Matches(format[f'..], list[a'..])
    ensures Printed(format[f..], list[a..]) == text + Printed(format[f'..], list[a'..])
  {
    text, f', a' := [], f + 1, a;
    var c := format[f];
    assert format[f..][1..] == format[f + 1..];
    if c != '%' {
      text := [c];
      return;
    }
    assert format[f..][2..] == format[f + 2..];
    assert a < |list| ==> list[a..][1..] == list[a + 1..];
    c := format[f + 1];
    f' := f + 2;
    if IsConversion(c) {
      match list[a] {
        case IntArg(i) => text := FormatInt(i);
        case StrArg(str) => text := str;
        case CharArg(ch) => text := [ch];
      }
      a' := a + 1;
    }
  }

  /** `vsprintf`. */
  method Vsprintf(buffer: array<char>, format: seq<char>, list: seq<Arg>) returns (retval: nat)
    requires Complete(format) && Matches(format, list) && |Printed(format, list)| < buffer.Length
    modifies buffer
    ensures retval == |Printed(format, list)| && buffer[..retval] == Printed(format, list)
    ensures buffer[retval] == '\0' && buffer[retval + 1..] == old(buffer[retval + 1..])
  {
    ghost var all := Printed(format, list);
    var f, a := 0, 0;
    var n := 0;
    while f < |format|
      invariant f <= |format| && a <= |list| && Complete(format[f..]) && Matches(format[f..], list[a..])
      invariant n <= |all| && buffer[..n] == all[..n] && Printed(format[f..], list[a..]) == all[n..]
      invariant buffer[|all| + 1..] == old(buffer[|all| + 1..])
    {
      var text;
      text, f, a := PrintNext(format, f, list, a);
      ghost var m := n;
      assert all[m..] == text + Printed(format[f..], list[a..]);
      n := Put(buffer, n, text);
      assert all[m..n] == text && all[..n] == all[..m] + all[m..n];
    }
    buffer[n] := '\0';
    retval := n;
  }

  // ----- The scanner -----

  /** `skip`. */
  method Skip(s: seq<char>, p: nat) returns (r: nat)
    requires p <= |s|
    ensures p <= r <= |s| && s[r..] == SkipBlanks(s[p..])
  {
    r := p;
    while r < |s| && Blank(s[r])
      invariant p <= r <= |s| && SkipBlanks(s[r..]) == SkipBlanks(s[p..])
    {
      assert s[r..][1..] == s[r + 1..];
      r := r + 1;
    }
  }

  /** How many digits there are from `p` on. */
  method SkipDigits(s: seq<char>, p: nat) returns (r: nat)
    requires p <= |s|
    ensures p <= r <= |s| && s[p..r] == LeadingDigits(s[p..])
  {
    r := p;
    while r < |s| && IsDigit(s[r])
      invariant p <= r <= |s| && forall i | p <= i < r :: IsDigit(s[i])
    {
      r := r + 1;
    }
    LeadingDigitsOf(s[p..r], s[r..]);
    assert s[p..r] + s[r..] == s[p..];
  }

  /** The value of the digits from `start` to `end`, in 32 bits. */
  method ReadNumber(s: seq<char>, start: nat, end: nat) returns (p: int)
    requires start <= end <= |s| && AllDigits(s[start..end])
    ensures p == ReadDigits(s[start..end]).0
  {
    var j := 1;
    p := 0;
    var e := end;
    while e > start
      invariant start <= e <= end && ReadDigits(s[e..end]) == (p, j)
    {
      e := e - 1;
      assert s[e..end][1..] == s[e + 1..end];
      assert s[e] == s[start..end][e - start];
      j := Wrap(j * 10);
      p := Wrap(p + DigitValue(s[e]) * Quotient(j, 10));
    }
  }

  /** `%d` of `vsscanf`. */
  method ReadInt(s: seq<char>, p: nat) returns (found: bool, value: int, r: nat)
    requires p <= |s|
    ensures !found <==> ScanInt(s[p..]).NoNumber?
    ensures found ==> r <= |s| && ScanInt(s[p..]) == IntRead(value, s[r..])
  {
    var start, negative := SkipSign(s, p);
    var end := SkipDigits(s, start);
    UnsignedAt(s, start, end, negative);
    found, value, r := start < end, 0, end;
    if found {
      value := ReadNumber(s, start, end);
      if negative {
        value := Wrap(-value);
      }
    }
  }

  lemma UnsignedAt(s: seq<char>, start: nat, end: nat, negative: bool)
    requires start <= end <= |s| && s[start..end] == LeadingDigits(s[start..])
    ensures ScanUnsigned(s[start..], negative) ==
            if start == end then NoNumber
            else IntRead(if negative then Wrap(-ReadDigits(s[start..end]).0) else ReadDigits(s[start..end]).0, s[end..])
  {
    assert s[start..][end - start..] == s[end..];
  }

  /** Blanks, a sign, blanks. */
  method SkipSign(s: seq<char>, p: nat) returns (r: nat, negative: bool)
    requires p <= |s|
    ensures r <= |s| && ScanInt(s[p..]) == ScanUnsigned(s[r..], negative)
  {
    var start := Skip(s, p);
    negative := start < |s| && s[start] == '-';
    if start < |s| && (s[start] == '+' || s[start] == '-') {
      assert s[start..][1..] == s[start + 1..];
      start := start + 1;
    }
    r := Skip(s, start);
  }

  /** The word of `%s`. */
  method SkipWord(s: seq<char>, p: nat) returns (r: nat)
    requires p <= |s|
    ensures p <= r <= |s| && s[p..r] == LeadingWord(s[p..])
  {
    r := p;
    while r < |s| && !Blank(s[r])
      invariant p <= r <= |s| && forall i | p <= i < r :: !Blank(s[i])
    {
      r := r + 1;
    }
    LeadingWordOf(s[p..r], s[r..]);
    assert s[p..r] + s[r..] == s[p..];
  }

  /** One round of the outer loop of `vsscanf` at a literal character. */
  method MatchLiteral(s: seq<char>, p: nat, c: char) returns (found: bool, r: nat)
    requires p < |s|
    ensures var t := if s[p] != c then SkipBlanks(s[p..]) else s[p..];
            if found then r <= |s| && t != [] && t[0] == c && t[1..] == s[r..] else t == [] || t[0] != c
  {
    r := p;
    if s[p] != c {
      r := Skip(s, p);
    }
    found := r < |s| && s[r] == c;
    if found {
      r := r + 1;
    }
  }

  /** What a conversion does at the front of `s`. */
  lemma ConversionStep(s: seq<char>, c: char, f: seq<char>, n: int, vals: seq<Arg>)
    requires s != [] && Complete(f)
    ensures Complete(['%', c] + f)
    ensures Scan(s, ['%', c] + f, n, vals) ==
            if c == 'd' then
              if ScanInt(s).NoNumber? then Scanned(n, vals)
              else Scan(ScanInt(s).rest, f, n + 1, vals + [IntArg(ScanInt(s).value)])
            else if c == 's' then
              Scan(SkipBlanks(s)[|LeadingWord(SkipBlanks(s))|..], f, n + 1, vals + [StrArg(LeadingWord(SkipBlanks(s)))])
            else if c == 'c' then Scan(s[1..], f, n + 1, vals + [CharArg(s[0])])
            else Scan(s, f, n, vals)
  {
    assert (['%', c] + f)[2..] == f;
  }

  /** `%s` of `vsscanf`. */
  method ReadWord(s: seq<char>, p: nat) returns (word: seq<char>, r: nat)
    requires p <= |s|
    ensures r <= |s| && word == LeadingWord(SkipBlanks(s[p..])) && s[r..] == SkipBlanks(s[p..])[|word|..]
  {
    var start := Skip(s, p);
    r := SkipWord(s, start);
    word := s[start..r];
    assert s[start..][r - start..] == s[r..];
  }

  /** The conversions of `vsscanf`; `found` is false if there is no number for `%d`. */
  method ReadConversion(s: seq<char>, p: nat, c: char, ghost f: seq<char>, n: int, vals: seq<Arg>)
    returns (found: bool, r: nat, retval: int, values: seq<Arg>)
    requires p < |s| && Complete(f)
    ensures r <= |s| && Complete(['%', c] + f)
    ensures found ==> Scan(s[p..], ['%', c] + f, n, vals) == Scan(s[r..], f, retval, values)
    ensures !found ==> Scan(s[p..], ['%', c] + f, n, vals) == Scanned(retval, values)
  {
    ConversionStep(s[p..], c, f, n, vals);
    found, r, retval, values := true, p, n, vals;
    if c == 'd' {
      var ok, value, end := ReadInt(s, p);
      found := ok;
      if ok {
        r, retval, values := end, n + 1, vals + [IntArg(value)];
      }
    } else if c == 's' {
      var word;
      word, r := ReadWord(s, p);
      retval, values := n + 1, vals + [StrArg(word)];
    } else if c == 'c' {
      assert s[p..][1..] == s[p + 1..];
      r, retval, values := p + 1, n + 1, vals + [CharArg(s[p])];
    }
  }

  /** `vsscanf`; the values stored through the pointers are returned in order. */
  method Vsscanf(s: seq<char>, format: seq<char>) returns (retval: int, values: seq<Arg>)
    requires Complete(format)
    ensures Scanned(retval, values) == Scan(s, format, 0, [])
    ensures retval == -1 || retval == |values|
  {
    ScanCounts(s, format, 0, []);
    var p: nat, f: nat := 0, 0;
    retval, values := 0, [];
    while f < |format| && p < |s|
      invariant p <= |s| && f <= |format| && Complete(format[f..])
      invariant Scan(s[p..], format[f..], retval, values) == Scan(s, format, 0, [])
      decreases |format| - f
    {
      var c := format[f];
      assert format[f..][1..] == format[f + 1..];
      if c == '%' {
        assert format[f..] == ['%', format[f + 1]] + format[f + 2..] && format[f..][2..] == format[f + 2..];
        var found;
        found, p, retval, values := ReadConversion(s, p, format[f + 1], format[f + 2..], retval, values);
        if !found {
          return;
        }
        f := f + 2;
      } else if Blank(c) {
        SkipKeepsComplete(format[f + 1..]);
        f := Skip(format, f + 1);
        p := Skip(s, p);
      } else {
        var found;
        found, p := MatchLiteral(s, p, c);
        if !found {
          return -1, values;
        }
        f := f + 1;
      }
    }
  }
}
