/** What the format strings of user/lib/stdio.c mean to the printer and to the scanner. */
module Formats {
  import opened Numbers

  datatype Arg = IntArg(i: int) | StrArg(s: seq<char>) | CharArg(c: char)

  /** Every `%` is followed by another character. */
  predicate Complete(f: seq<char>) {
    f == [] || if f[0] == '%' then |f| >= 2 && Complete(f[2..]) else Complete(f[1..])
  }

  predicate Blank(c: char) {
    c == ' ' || c == '\n'
  }

  // ----- Printing -----

  /** The arguments are those the format asks for. The least `int` is left out: it has no absolute value. */
  predicate Matches(f: seq<char>, args: seq<Arg>)
    requires Complete(f)
  {
    if f == [] then args == []
    else if f[0] != '%' then Matches(f[1..], args)
    else if f[1] == 'd' then args != [] && args[0].IntArg? && -INT_BOUND < args[0].i < INT_BOUND && Matches(f[2..], args[1..])
    else if f[1] == 's' then args != [] && args[0].StrArg? && Matches(f[2..], args[1..])
    else if f[1] == 'c' then args != [] && args[0].CharArg? && Matches(f[2..], args[1..])
    else Matches(f[2..], args)
  }

  function PrintArg(a: Arg): (s: seq<char>) {
    match a
    case IntArg(i) => Decimal(i)
    case StrArg(s) => s
    case CharArg(c) => [c]
  }

  predicate IsConversion(c: char) {
    c == 'd' || c == 's' || c == 'c'
  }

  /** What `vsprintf` prints; unknown conversions print nothing. */
  function Printed(f: seq<char>, args: seq<Arg>): (s: seq<char>)
    requires Complete(f) && Matches(f, args)
  {
    if f == [] then []
    else if f[0] != '%' then [f[0]] + Printed(f[1..], args)
    else if IsConversion(f[1]) then PrintArg(args[0]) + Printed(f[2..], args[1..])
    else Printed(f[2..], args)
  }

  // ----- Scanning -----

  datatype Scanned = Scanned(retval: int, values: seq<Arg>)

  function SkipBlanks(s: seq<char>): (r: seq<char>)
    ensures |r| <= |s| && (r == [] || !Blank(r[0]))
    ensures s == [] || !Blank(s[0]) ==> r == s
  {
    if s != [] && Blank(s[0]) then SkipBlanks(s[1..]) else s
  }

  function LeadingDigits(s: seq<char>): (r: seq<char>)
    ensures AllDigits(r) && r <= s && (|r| < |s| ==> !IsDigit(s[|r|]))
  {
    if s == [] || !IsDigit(s[0]) then [] else [s[0]] + LeadingDigits(s[1..])
  }

  function LeadingWord(s: seq<char>): (r: seq<char>)
    ensures r <= s && (forall i | 0 <= i < |r| :: !Blank(r[i])) && (|r| < |s| ==> Blank(s[|r|]))
  {
    if s == [] || Blank(s[0]) then [] else [s[0]] + LeadingWord(s[1..])
  }

  datatype IntRead = NoNumber | IntRead(value: int, rest: seq<char>)

  /** `%d` in `vsscanf`: blanks, a sign, blanks, digits. */
  function ScanInt(s: seq<char>): IntRead {
    var start := SkipBlanks(s);
    var signed := start != [] && (start[0] == '+' || start[0] == '-');
    ScanUnsigned(SkipBlanks(if signed then start[1..] else start), signed && start[0] == '-')
  }

  function ScanUnsigned(digits: seq<char>, negative: bool): IntRead {
    var run := LeadingDigits(digits);
    if run == [] then NoNumber
    else
      var p := ReadDigits(run).0;
      IntRead(if negative then Wrap(-p) else p, digits[|run|..])
  }

  lemma {:induction false} SkipKeepsComplete(f: seq<char>)
    requires Complete(f)
    ensures Complete(SkipBlanks(f))
  {
    if f != [] && Blank(f[0]) {
      SkipKeepsComplete(f[1..]);
    }
  }

  /** `vsscanf` after `n` conversions stored `vals`, with `s` and `f` still to go. */
  function Scan(s: seq<char>, f: seq<char>, n: int, vals: seq<Arg>): Scanned
    requires Complete(f)
    decreases |f|
  {
    if f == [] || s == [] then Scanned(n, vals)
    else if Blank(f[0]) then
      SkipKeepsComplete(f[1..]);
      Scan(SkipBlanks(s), SkipBlanks(f[1..]), n, vals)
    else if f[0] != '%' then
      var s' := if s[0] != f[0] then SkipBlanks(s) else s;
      if s' == [] || s'[0] != f[0] then Scanned(-1, vals) else Scan(s'[1..], f[1..], n, vals)
    else if f[1] == 'd' then
      match ScanInt(s)
      case NoNumber => Scanned(n, vals)
      case IntRead(value, rest) => Scan(rest, f[2..], n + 1, vals + [IntArg(value)])
    else if f[1] == 's' then
      var word := LeadingWord(SkipBlanks(s));
      Scan(SkipBlanks(s)[|word|..], f[2..], n + 1, vals + [StrArg(word)])
    else if f[1] == 'c' then Scan(s[1..], f[2..], n + 1, vals + [CharArg(s[0])])
    else Scan(s, f[2..], n, vals)
  }

  /** The scanner answers -1 or the number of values it has stored. */
  lemma {:induction false} ScanCounts(s: seq<char>, f: seq<char>, n: int, vals: seq<Arg>)
    requires Complete(f)
    ensures var r := Scan(s, f, n, vals); vals <= r.values && (r.retval == -1 || r.retval - n == |r.values| - |vals|)
    decreases |f|
  {
    if f == [] || s == [] {
    } else if Blank(f[0]) {
      SkipKeepsComplete(f[1..]);
      ScanCounts(SkipBlanks(s), SkipBlanks(f[1..]), n, vals);
    } else if f[0] != '%' {
      var s' := if s[0] != f[0] then SkipBlanks(s) else s;
      if s' != [] && s'[0] == f[0] {
        ScanCounts(s'[1..], f[1..], n, vals);
      }
    } else if f[1] == 'd' {
      if ScanInt(s).IntRead? {
        ScanCounts(ScanInt(s).rest, f[2..], n + 1, vals + [IntArg(ScanInt(s).value)]);
      }
    } else if f[1] == 's' {
      var word := LeadingWord(SkipBlanks(s));
      ScanCounts(SkipBlanks(s)[|word|..], f[2..], n + 1, vals + [StrArg(word)]);
    } else if f[1] == 'c' {
      ScanCounts(s[1..], f[2..], n + 1, vals + [CharArg(s[0])]);
    } else {
      ScanCounts(s, f[2..], n, vals);
    }
  }

  /** Unknown conversions are ignored by both sides. */
  lemma UnknownIgnored(c: char, f: seq<char>, args: seq<Arg>, s: seq<char>, n: int, vals: seq<Arg>)
    requires !IsConversion(c) && Complete(f) && s != []
    ensures Complete(['%', c] + f) && Scan(s, ['%', c] + f, n, vals) == Scan(s, f, n, vals)
    ensures Matches(['%', c] + f, args) <==> Matches(f, args)
    ensures Matches(f, args) ==> Printed(['%', c] + f, args) == Printed(f, args)
  {
    assert (['%', c] + f)[2..] == f;
  }

  /** It answers -1 at a literal character that the text does not go on with, not even behind blanks. */
  lemma ScanMismatch(blanks: seq<char>, d: char, tail: seq<char>, c: char, f: seq<char>, n: int, vals: seq<Arg>)
    requires AllBlank(blanks) && !Blank(d) && d != c && c != '%' && !Blank(c) && Complete(f)
    ensures Complete([c] + f) && Scan(blanks + ([d] + tail), [c] + f, n, vals) == Scanned(-1, vals)
  {
    var s := blanks + ([d] + tail);
    assert ([c] + f)[1..] == f && s[0] != c;
    SkipAll(blanks, [d] + tail);
  }

  // ----- Formats as conversions and literal characters -----

  datatype Item = Conversion(kind: char) | Literal(c: char)

  function Text(items: seq<Item>): (f: seq<char>) {
    if items == [] then []
    else if items[0].Conversion? then ['%', items[0].kind] + Text(items[1..])
    else [items[0].c] + Text(items[1..])
  }

  /** What is printed for items, in their own terms. */
  function Print(items: seq<Item>, args: seq<Arg>): (s: seq<char>) {
    if items == [] then []
    else if items[0].Literal? then [items[0].c] + Print(items[1..], args)
    else if args == [] then []
    else PrintArg(args[0]) + Print(items[1..], args[1..])
  }

  /** A word that `%s` can read back. */
  predicate IsWord(w: seq<char>) {
    w != [] && forall i | 0 <= i < |w| :: !Blank(w[i]) && w[i] != '\0'
  }

  /** An argument that a conversion prints and reads back. */
  predicate ArgOk(kind: char, a: Arg) {
    match a
    case IntArg(i) => kind == 'd' && -1000000000 < i < 1000000000
    case StrArg(w) => kind == 's' && IsWord(w)
    case CharArg(c) => kind == 'c' && c != '\0'
  }

  /** What is printed behind a conversion does not look like more of it. */
  predicate EndsBefore(kind: char, tail: seq<char>) {
    tail == [] || ((kind == 'd' ==> !IsDigit(tail[0])) && (kind == 's' ==> Blank(tail[0])))
  }

  predicate StartsBlank(items: seq<Item>, args: seq<Arg>) {
    items != [] && items[0].Conversion? && args != [] && args[0].CharArg? && Blank(args[0].c)
  }

  /** Arguments for all conversions, each ending where the text shows it; no literal is `%` or ends the string, and
      no blank is printed by `%c` behind a literal blank, which would skip it. */
  predicate Readable(items: seq<Item>, args: seq<Arg>) {
    if items == [] then args == []
    else if items[0].Literal? then
      && items[0].c != '%' && items[0].c != '\0' && Readable(items[1..], args)
      && (Blank(items[0].c) ==> !StartsBlank(items[1..], args))
    else
      && args != [] && ArgOk(items[0].kind, args[0]) && Readable(items[1..], args[1..])
      && EndsBefore(items[0].kind, Print(items[1..], args[1..]))
  }

  lemma {:induction false} PrintedText(items: seq<Item>, args: seq<Arg>)
    requires Readable(items, args)
    ensures Complete(Text(items)) && Matches(Text(items), args)
    ensures Printed(Text(items), args) == Print(items, args)
  {
    if items != [] {
      var rest := items[1..];
      if items[0].Conversion? {
        PrintedText(rest, args[1..]);
        assert Text(items)[2..] == Text(rest);
      } else {
        PrintedText(rest, args);
        assert Text(items)[1..] == Text(rest);
      }
    }
  }

  // ----- The round trip -----

  lemma {:induction false} LeadingDigitsOf(ds: seq<char>, rest: seq<char>)
    requires AllDigits(ds) && (rest == [] || !IsDigit(rest[0]))
    ensures LeadingDigits(ds + rest) == ds
  {
    if ds != [] {
      LeadingDigitsOf(ds[1..], rest);
      assert (ds + rest)[1..] == ds[1..] + rest;
    } else {
      assert ds + rest == rest;
    }
  }

  lemma ScanDigits(n: nat, rest: seq<char>, negative: bool)
    requires n < 1000000000 && (rest == [] || !IsDigit(rest[0]))
    ensures ScanUnsigned(Digits(n) + rest, negative) == IntRead(if negative then -(n as int) else n, rest)
  {
    LeadingDigitsOf(Digits(n), rest);
    DigitsRoundTripIff(n);
    assert (Digits(n) + rest)[|Digits(n)|..] == rest;
  }

  /** `%d` reads up to nine digits behind blanks, a sign or none, and more blanks; `+` changes nothing. */
  lemma ScanSignedInt(front: seq<char>, sign: seq<char>, between: seq<char>, n: nat, rest: seq<char>)
    requires n < 1000000000 && (rest == [] || !IsDigit(rest[0])) && AllBlank(front) && AllBlank(between)
    requires sign == [] || sign == ['+'] || sign == ['-']
    ensures ScanInt(front + (sign + (between + (Digits(n) + rest)))) == IntRead(if sign == ['-'] then -(n as int) else n, rest)
  {
    var ds := Digits(n) + rest;
    assert ds[0] == Digits(n)[0];
    ScanDigits(n, rest, sign == ['-']);
    SkipAll(between, ds);
    if sign == [] {
      assert sign + (between + ds) == between + ds && front + (between + ds) == (front + between) + ds;
      SkipAll(front + between, ds);
    } else {
      assert (sign + (between + ds))[1..] == between + ds;
      SkipAll(front, sign + (between + ds));
    }
  }

  ghost predicate AllBlank(s: seq<char>) {
    forall i | 0 <= i < |s| :: Blank(s[i])
  }

  lemma {:induction false} SkipAll(blanks: seq<char>, rest: seq<char>)
    requires AllBlank(blanks) && (rest == [] || !Blank(rest[0]))
    ensures SkipBlanks(blanks + rest) == rest
  {
    if blanks != [] {
      SkipAll(blanks[1..], rest);
      assert (blanks + rest)[1..] == blanks[1..] + rest;
    } else {
      assert blanks + rest == rest;
    }
  }

  /** `%d` reads back what `%d` printed, if it is not followed by a digit and has at most nine. */
  lemma ScanPrintedInt(i: int, rest: seq<char>)
    requires -1000000000 < i < 1000000000 && (rest == [] || !IsDigit(rest[0]))
    ensures ScanInt(Decimal(i) + rest) == IntRead(i, rest)
  {
    var n: nat := if i < 0 then -i else i;
    var sign := if i < 0 then ['-'] else [];
    NoBlanks(sign, Digits(n), rest);
    ScanSignedInt([], sign, [], n, rest);
  }

  lemma NoBlanks(sign: seq<char>, digits: seq<char>, rest: seq<char>)
    ensures [] + (sign + ([] + (digits + rest))) == sign + digits + rest
    ensures sign == [] ==> [] + (sign + ([] + (digits + rest))) == digits + rest
  {
  }

  lemma {:induction false} LeadingWordOf(word: seq<char>, rest: seq<char>)
    requires (forall i | 0 <= i < |word| :: !Blank(word[i])) && (rest == [] || Blank(rest[0]))
    ensures LeadingWord(word + rest) == word
  {
    if word != [] {
      LeadingWordOf(word[1..], rest);
      assert (word + rest)[1..] == word[1..] + rest;
    } else {
      assert word + rest == rest;
    }
  }

  /** The rest of the items after the blanks in front. */
  function AfterBlanks(items: seq<Item>): (r: seq<Item>)
    ensures |r| <= |items|
  {
    if items != [] && items[0].Literal? && Blank(items[0].c) then AfterBlanks(items[1..]) else items
  }

  lemma PrintStart(kind: char, a: Arg, tail: seq<char>)
    requires ArgOk(kind, a) && !(a.CharArg? && Blank(a.c))
    ensures PrintArg(a) != [] && !Blank((PrintArg(a) + tail)[0])
  {
    if a.IntArg? {
      assert PrintArg(a)[0] == '-' || IsDigit(PrintArg(a)[0]);
    }
  }

  lemma {:induction false} BlanksInStep(items: seq<Item>, args: seq<Arg>)
    requires Readable(items, args) && !StartsBlank(items, args)
    ensures var r := AfterBlanks(items);
            Readable(r, args) && SkipBlanks(Text(items)) == Text(r) && SkipBlanks(Print(items, args)) == Print(r, args)
  {
    if items != [] {
      if items[0].Conversion? {
        PrintStart(items[0].kind, args[0], Print(items[1..], args[1..]));
      } else if Blank(items[0].c) {
        BlanksInStep(items[1..], args);
        assert Text(items)[1..] == Text(items[1..]) && Print(items, args)[1..] == Print(items[1..], args);
      }
    }
  }

  lemma ScanWord(w: seq<char>, tail: seq<char>)
    requires IsWord(w) && (tail == [] || Blank(tail[0]))
    ensures SkipBlanks(w + tail) == w + tail && LeadingWord(w + tail) == w && (w + tail)[|w|..] == tail
  {
    LeadingWordOf(w, tail);
  }

  /** A conversion reads back what it printed. */
  lemma ScanConversion(kind: char, a: Arg, tail: seq<char>, f: seq<char>, n: int, vals: seq<Arg>)
    requires ArgOk(kind, a) && EndsBefore(kind, tail) && Complete(f)
    ensures Complete(['%', kind] + f)
    ensures Scan(PrintArg(a) + tail, ['%', kind] + f, n, vals) == Scan(tail, f, n + 1, vals + [a])
  {
    assert (['%', kind] + f)[2..] == f;
    match a
    case IntArg(i) => ScanPrintedInt(i, tail);
    case StrArg(w) => ScanWord(w, tail);
    case CharArg(c) => assert ([c] + tail)[1..] == tail;
  }

  lemma ScanLiteral(c: char, tail: seq<char>, f: seq<char>, n: int, vals: seq<Arg>)
    requires c != '%' && Complete(f)
    ensures Complete([c] + f) && Complete(SkipBlanks(f))
    ensures Scan([c] + tail, [c] + f, n, vals) ==
            if Blank(c) then Scan(SkipBlanks(tail), SkipBlanks(f), n, vals) else Scan(tail, f, n, vals)
  {
    assert ([c] + f)[1..] == f && ([c] + tail)[1..] == tail;
    SkipKeepsComplete(f);
  }

  lemma {:induction false} RoundTripFrom(items: seq<Item>, args: seq<Arg>, n: int, vals: seq<Arg>)
    requires Readable(items, args) && Complete(Text(items))
    ensures Scan(Print(items, args), Text(items), n, vals) == Scanned(n + |args|, vals + args)
    decreases |items|
  {
    if items == [] {
      assert vals + args == vals;
    } else {
      var rest := items[1..];
      if items[0].Conversion? {
        assert Text(items)[2..] == Text(rest);
        ScanConversion(items[0].kind, args[0], Print(rest, args[1..]), Text(rest), n, vals);
        RoundTripFrom(rest, args[1..], n + 1, vals + [args[0]]);
        assert vals + [args[0]] + args[1..] == vals + args;
      } else {
        assert Text(items)[1..] == Text(rest);
        ScanLiteral(items[0].c, Print(rest, args), Text(rest), n, vals);
        if Blank(items[0].c) {
          BlanksInStep(rest, args);
          RoundTripFrom(AfterBlanks(rest), args, n, vals);
        } else {
          RoundTripFrom(rest, args, n, vals);
        }
      }
    }
  }

  /** `vsscanf` undoes `vsprintf`: it stores all arguments again, numbers, words and characters. */
  lemma RoundTrip(items: seq<Item>, args: seq<Arg>)
    requires Readable(items, args)
    ensures Complete(Text(items)) && Matches(Text(items), args)
    ensures Scan(Printed(Text(items), args), Text(items), 0, []) == Scanned(|args|, args)
  {
    PrintedText(items, args);
    RoundTripFrom(items, args, 0, []);
  }
}
