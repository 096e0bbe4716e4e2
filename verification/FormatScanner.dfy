/** `vsprintf` (qi-usb-lcd/src/utils.c): the format scanner over the number printer. */
module FormatScanner {
  import opened Arithmetic
  import opened Numerals
  import opened Printf

  /** A variable argument; strings may be null. */
  datatype Arg = Int(v: Long) | Str(s: Option<string>)

  /** `va_arg`.  Reading a missing argument, or one of the other kind, is undefined in C; here it reads as zero. */
  function IntArg(args: seq<Arg>, k: nat): Long {
    if k < |args| && args[k].Int? then args[k].v else 0
  }

  function StrArg(args: seq<Arg>, k: nat): Option<string> {
    if k < |args| && args[k].Str? then args[k].s else None
  }

  /** The character under the format cursor; the format ends with NUL. */
  function Head(f: string): char { if f == "" then '\0' else f[0] }

  function Rest(f: string): string { if f == "" then "" else f[1..] }

  const NO_FLAGS := Flags(false, false, false, false, false, false, false)

  // ---------------------------------------------------------------- one directive

  function TakeFlags(f: string, flags: Flags): (Flags, string) {
    if f == "" then (flags, f)
    else if f[0] == '-' then TakeFlags(f[1..], flags.(left := true))
    else if f[0] == '+' then TakeFlags(f[1..], flags.(plus := true))
    else if f[0] == ' ' then TakeFlags(f[1..], flags.(space := true))
    else if f[0] == '#' then TakeFlags(f[1..], flags.(special := true))
    else if f[0] == '0' then TakeFlags(f[1..], flags.(zeropad := true))
    else (flags, f)
  }

  /** `skip_atoi`. */
  function TakeNumber(f: string, acc: int): (int, string) {
    if f == "" || !IsDigit(f[0]) then (acc, f)
    else TakeNumber(f[1..], acc * 10 + (f[0] as int - '0' as int))
  }

  /** A parsed directive: everything between the percent sign and the conversion character, and how many
      arguments its stars have used. */
  datatype Directive = Directive(flags: Flags, width: int, precision: int, qualifier: char, rest: string, used: nat)

  function TakeWidth(f: string, flags: Flags, args: seq<Arg>, k: nat): (Flags, int, string, nat) {
    if IsDigit(Head(f)) then
      var (n, r) := TakeNumber(f, 0);
      (flags, n, r, 0)
    else if Head(f) == '*' then
      var w: int := IntArg(args, k);
      if w < 0 then (flags.(left := true), -w, Rest(f), 1) else (flags, w, Rest(f), 1)
    else (flags, -1, f, 0)
  }

  function TakePrecision(f: string, args: seq<Arg>, k: nat): (int, string, nat) {
    if Head(f) != '.' then (-1, f, 0)
    else
      var g := Rest(f);
      if IsDigit(Head(g)) then
        var (n, r) := TakeNumber(g, 0);
        (if n < 0 then 0 else n, r, 0)
      else if Head(g) == '*' then
        var p: int := IntArg(args, k);
        (if p < 0 then 0 else p, Rest(g), 1)
      else (0, g, 0)
  }

  /** `f` starts just after the percent sign. */
  function ParseDirective(f: string, args: seq<Arg>, k: nat): Directive {
    var (flags0, f1) := TakeFlags(f, NO_FLAGS);
    var (flags, width, f2, used1) := TakeWidth(f1, flags0, args, k);
    var (precision, f3, used2) := TakePrecision(f2, args, k + used1);
    if Head(f3) == 'h' || Head(f3) == 'l' || Head(f3) == 'q' then
      Directive(flags, width, precision, f3[0], f3[1..], used1 + used2)
    else Directive(flags, width, precision, '\0', f3, used1 + used2)
  }

  lemma TakeNumberShortens(f: string, acc: int)
    ensures |TakeNumber(f, acc).1| <= |f|
  {
  }

  lemma TakeFlagsShortens(f: string, flags: Flags)
    ensures |TakeFlags(f, flags).1| <= |f|
  {
  }

  /** Scanning a directive never passes the end of the format. */
  lemma DirectiveShortens(f: string, args: seq<Arg>, k: nat)
    ensures |ParseDirective(f, args, k).rest| <= |f|
  {
    hide TakeNumber, TakeFlags;
    var (flags0, f1) := TakeFlags(f, NO_FLAGS);
    TakeFlagsShortens(f, NO_FLAGS);
    var (flags, width, f2, used1) := TakeWidth(f1, flags0, args, k);
    TakeNumberShortens(f1, 0);
    TakeNumberShortens(Rest(f2), 0);
  }

  // ---------------------------------------------------------------- one conversion

  /** The text and the number of arguments of a conversion; `counts` is what `%n` stores. */
  datatype Piece = Piece(text: string, used: nat, counts: seq<nat>)

  function Padded(text: string, width: int, left: bool): string {
    if left then text + Repeat(' ', width - |text|) else Repeat(' ', width - |text|) + text
  }

  function StringText(s: Option<string>, width: int, precision: int, left: bool): string {
    var t := if s.None? then "<NULL>" else s.value;
    Padded(if 0 <= precision < |t| then t[..precision] else t, width, left)
  }

  /** The integer an integer conversion prints. */
  function Narrow(v: Long, qualifier: char, sign: bool): Long {
    if qualifier == 'h' then (if sign then (v + 0x8000) % 0x1_0000 - 0x8000 else v % 0x1_0000) else v
  }

  function IntegerPiece(d: Directive, base: nat, flags: Flags, args: seq<Arg>, k: nat): Piece
    requires base == 8 || base == 10 || base == 16
  {
    Piece(NumberText(Narrow(IntArg(args, k), d.qualifier, flags.sign), base, d.width, d.precision, flags), 1, [])
  }

  function ByteOf(v: Long): char { (v % 256) as char }

  /** What the conversion character `c` prints at output length `len`, given its directive. */
  function Convert(c: char, d: Directive, args: seq<Arg>, k: nat, len: nat): Piece {
    match c
    case 'c' => Piece(Padded([ByteOf(IntArg(args, k))], d.width, d.flags.left), 1, [])
    case 's' => Piece(StringText(StrArg(args, k), d.width, d.precision, d.flags.left), 1, [])
    case 'p' =>
      if d.width == -1 then
        Piece(NumberText(IntArg(args, k), 16, 8, d.precision, d.flags.(zeropad := true)), 1, [])
      else Piece(NumberText(IntArg(args, k), 16, d.width, d.precision, d.flags), 1, [])
    case 'n' => Piece("", 1, [len])
    case '%' => Piece("%", 0, [])
    case 'o' => IntegerPiece(d, 8, d.flags, args, k)
    case 'X' => IntegerPiece(d, 16, d.flags.(large := true), args, k)
    case 'x' => IntegerPiece(d, 16, d.flags, args, k)
    case 'd' => IntegerPiece(d, 10, d.flags.(sign := true), args, k)
    case 'i' => IntegerPiece(d, 10, d.flags.(sign := true), args, k)
    case 'u' => IntegerPiece(d, 10, d.flags, args, k)
    case _ => Piece(if c == '\0' then "%" else ['%', c], 0, [])
  }

  // ---------------------------------------------------------------- the whole format

  datatype Output = Output(text: string, counts: seq<nat>)

  /** The output of the format `f`, with the arguments from `k` on, after `out` has been produced. */
  function Format(f: string, args: seq<Arg>, k: nat, out: Output): Output
    decreases |f|
  {
    if f == "" then out
    else if f[0] != '%' then Format(f[1..], args, k, out.(text := out.text + [f[0]]))
    else
      var d := ParseDirective(f[1..], args, k);
      DirectiveShortens(f[1..], args, k);
      var p := Convert(Head(d.rest), d, args, k + d.used, |out.text|);
      Format(Rest(d.rest), args, k + d.used + p.used, Output(out.text + p.text, out.counts + p.counts))
  }

  // ---------------------------------------------------------------- vsprintf

  /** The `repeat` loop over flags, from the cursor `start`. */
  method ScanFlags(fmt: string, start: nat) returns (flags: Flags, i: nat)
    requires start <= |fmt|
    ensures start <= i <= |fmt| && TakeFlags(fmt[start..], NO_FLAGS) == (flags, fmt[i..])
  {
    flags, i := NO_FLAGS, start;
    while i < |fmt|
      invariant start <= i <= |fmt|
      invariant TakeFlags(fmt[start..], NO_FLAGS) == TakeFlags(fmt[i..], flags)
    {
      assert fmt[i..][1..] == fmt[i + 1..];
      match fmt[i] {
        case '-' => flags := flags.(left := true);
        case '+' => flags := flags.(plus := true);
        case ' ' => flags := flags.(space := true);
        case '#' => flags := flags.(special := true);
        case '0' => flags := flags.(zeropad := true);
        case _ => return;
      }
      i := i + 1;
    }
  }

  method SkipAtoi(fmt: string, start: nat) returns (n: int, i: nat)
    requires start <= |fmt|
    ensures start <= i <= |fmt| && TakeNumber(fmt[start..], 0) == (n, fmt[i..])
  {
    n, i := 0, start;
    while i < |fmt| && IsDigit(fmt[i])
      invariant start <= i <= |fmt|
      invariant TakeNumber(fmt[start..], 0) == TakeNumber(fmt[i..], n)
    {
      assert fmt[i..][1..] == fmt[i + 1..];
      n := n * 10 + (fmt[i] as int - '0' as int);
      i := i + 1;
    }
  }

  lemma Cursor(fmt: string, i: nat)
    requires i <= |fmt|
    ensures Head(fmt[i..]) == if i < |fmt| then fmt[i] else '\0'
    ensures i < |fmt| ==> Rest(fmt[i..]) == fmt[i..][1..] == fmt[i + 1..]
  {
  }

  method ScanWidth(fmt: string, start: nat, flags0: Flags, args: seq<Arg>, k: nat)
    returns (flags: Flags, width: int, i: nat, used: nat)
    requires start <= |fmt|
    ensures start <= i <= |fmt| && TakeWidth(fmt[start..], flags0, args, k) == (flags, width, fmt[i..], used)
  {
    hide TakeNumber, Head, Rest;
    flags, width, i, used := flags0, -1, start, 0;
    Cursor(fmt, i);
    if i < |fmt| && IsDigit(fmt[i]) {
      width, i := SkipAtoi(fmt, i);
    } else if i < |fmt| && fmt[i] == '*' {
      i := i + 1;
      width := IntArg(args, k);
      used := 1;
      if width < 0 {
        width := -width;
        flags := flags.(left := true);
      }
    }
  }

  method ScanPrecision(fmt: string, start: nat, args: seq<Arg>, k: nat) returns (precision: int, i: nat, used: nat)
    requires start <= |fmt|
    ensures start <= i <= |fmt| && TakePrecision(fmt[start..], args, k) == (precision, fmt[i..], used)
  {
    hide TakeNumber, Head, Rest;
    precision, i, used := -1, start, 0;
    Cursor(fmt, i);
    if i < |fmt| && fmt[i] == '.' {
      i := i + 1;
      Cursor(fmt, i);
      if i < |fmt| && IsDigit(fmt[i]) {
        precision, i := SkipAtoi(fmt, i);
      } else if i < |fmt| && fmt[i] == '*' {
        i := i + 1;
        precision := IntArg(args, k);
        used := 1;
      }
      if precision < 0 { precision := 0; }
    }
  }

  /** From the character after the percent sign to the conversion character. */
  method ScanDirective(fmt: string, start: nat, args: seq<Arg>, k: nat) returns (d: Directive, i: nat)
    requires start <= |fmt|
    ensures start <= i <= |fmt| && d == ParseDirective(fmt[start..], args, k) && d.rest == fmt[i..]
  {
    hide TakeFlags, TakeWidth, TakePrecision, Head;
    var flags, width, used;
    flags, i := ScanFlags(fmt, start);
    flags, width, i, used := ScanWidth(fmt, i, flags, args, k);
    var precision, more;
    precision, i, more := ScanPrecision(fmt, i, args, k + used);
    Cursor(fmt, i);
    var qualifier := '\0';
    if i < |fmt| && (fmt[i] == 'h' || fmt[i] == 'l' || fmt[i] == 'q') {
      qualifier := fmt[i];
      i := i + 1;
    }
    d := Directive(flags, width, precision, qualifier, fmt[i..], used + more);
  }

  /** The character loop of the string conversions. */
  method Copy(str: string, text: string) returns (out: string)
    ensures out == str + text
  {
    out := str;
    var i := 0;
    while i < |text|
      invariant 0 <= i <= |text| && out == str + text[..i]
    {
      assert text[..i + 1] == text[..i] + [text[i]];
      out := out + [text[i]];
      i := i + 1;
    }
    assert text[..i] == text;
  }

  /** The cases `c` and `s`: padding, characters, padding. */
  method EmitPadded(str: string, text: string, width: int, left: bool) returns (out: string)
    ensures out == str + Padded(text, width, left)
  {
    hide Repeat;
    out := str;
    var size := width - |text|;
    if !left { out, size := Pad(out, size, ' '); }
    out := Copy(out, text);
    if !left { RepeatNone(' ', size, out); }
    out, size := Pad(out, size, ' ');
  }

  /** `strnlen`; a negative limit is taken as unsigned, and so is none. */
  function Strnlen(s: string, limit: int): (r: nat)
    ensures r <= |s|
  {
    if 0 <= limit < |s| then limit else |s|
  }

  /** The switch over the conversion character. */
  method EmitConversion(str: string, c: char, d: Directive, args: seq<Arg>, k: nat)
    returns (out: string, used: nat, counts: seq<nat>)
    ensures var p := Convert(c, d, args, k, |str|); out == str + p.text && used == p.used && counts == p.counts
  {
    hide NumberText, Padded;
    out, used, counts := str, 0, [];
    var flags, base := d.flags, 10;
    match c {
      case 'c' =>
        out := EmitPadded(str, [ByteOf(IntArg(args, k))], d.width, flags.left);
        return out, 1, [];
      case 's' =>
        var s := StrArg(args, k);
        var t := if s.None? then "<NULL>" else s.value;
        var len := Strnlen(t, d.precision);
        assert t[..|t|] == t;
        out := EmitPadded(str, t[..len], d.width, flags.left);
        return out, 1, [];
      case 'p' =>
        var width := d.width;
        if width == -1 {
          width := 8;
          flags := flags.(zeropad := true);
        }
        var r := Number(str, IntArg(args, k), 16, width, d.precision, flags);
        return r.value, 1, [];
      case 'n' =>
        return str, 1, [|str|];
      case '%' =>
        return str + ['%'], 0, [];
      case 'o' => base := 8;
      case 'X' =>
        flags := flags.(large := true);
        base := 16;
      case 'x' => base := 16;
      case 'd' => flags := flags.(sign := true);
      case 'i' => flags := flags.(sign := true);
      case 'u' =>
      case _ =>
        out := out + ['%'];
        if c != '\0' { out := out + [c]; }
        return out, 0, [];
    }
    var r := Number(str, Narrow(IntArg(args, k), d.qualifier, flags.sign), base, d.width, d.precision, flags);
    return r.value, 1, [];
  }

  lemma PlainStep(fmt: string, i: nat, args: seq<Arg>, k: nat, out: Output)
    requires i < |fmt| && fmt[i] != '%'
    ensures Format(fmt[i..], args, k, out) == Format(fmt[i + 1..], args, k, out.(text := out.text + [fmt[i]]))
  {
    assert fmt[i..][1..] == fmt[i + 1..];
  }

  /** A directive from the percent sign at `i`, whose conversion character stands at `j`. */
  lemma PercentStep(fmt: string, i: nat, j: nat, d: Directive, args: seq<Arg>, k: nat, out: Output)
    requires i < j <= |fmt| && fmt[i] == '%' && d == ParseDirective(fmt[i + 1..], args, k) && d.rest == fmt[j..]
    ensures var p := Convert(if j < |fmt| then fmt[j] else '\0', d, args, k + d.used, |out.text|);
            Format(fmt[i..], args, k, out) ==
            Format(fmt[if j < |fmt| then j + 1 else j..], args, k + d.used + p.used,
                   Output(out.text + p.text, out.counts + p.counts))
  {
    hide Convert, ParseDirective;
    assert fmt[i..][1..] == fmt[i + 1..];
    if j < |fmt| { assert fmt[j..][1..] == fmt[j + 1..]; }
  }

  /** `vsprintf`, on any format.  The cursor stays within the format, also when it ends inside a directive,
      and the value returned is the number of characters stored. */
  method VSPrintf(fmt: string, args: seq<Arg>) returns (out: string, ret: int, counts: seq<nat>)
    requires '\0' !in fmt
    ensures Output(out, counts) == Format(fmt, args, 0, Output("", []))
    ensures ret == |out|
  {
    hide Convert, ParseDirective, Format;
    out, counts := "", [];
    var i: nat, k: nat := 0, 0;
    assert fmt[0..] == fmt;
    while i < |fmt|
      invariant i <= |fmt|
      invariant Format(fmt, args, 0, Output("", [])) == Format(fmt[i..], args, k, Output(out, counts))
      decreases |fmt| - i
    {
      if fmt[i] != '%' {
        PlainStep(fmt, i, args, k, Output(out, counts));
        out := out + [fmt[i]];
        i := i + 1;
        continue;
      }
      var d, j, used, more;
      d, j := ScanDirective(fmt, i + 1, args, k);
      PercentStep(fmt, i, j, d, args, k, Output(out, counts));
      k := k + d.used;
      out, used, more := EmitConversion(out, if j < |fmt| then fmt[j] else '\0', d, args, k);
      k := k + used;
      counts := counts + more;
      i := if j < |fmt| then j + 1 else j;
    }
    FormatDone(args, k, Output(out, counts));
    assert fmt[i..] == "";
    ret := |out|;
  }

  lemma FormatDone(args: seq<Arg>, k: nat, out: Output)
    ensures Format("", args, k, out) == out
  {
  }

  // ---------------------------------------------------------------- what the output is

  /** Doubling every percent sign. */
  function Escaped(s: string): string {
    if s == "" then "" else (if s[0] == '%' then "%%" else [s[0]]) + Escaped(s[1..])
  }

  /** A conversion character right after the percent sign. */
  lemma BareDirective(c: char, rest: string, args: seq<Arg>, k: nat)
    requires c == 'd' || c == 's' || c == '%'
    ensures ParseDirective([c] + rest, args, k) == Directive(NO_FLAGS, -1, -1, '\0', [c] + rest, 0)
  {
    var f := [c] + rest;
    assert TakeFlags(f, NO_FLAGS) == (NO_FLAGS, f);
  }

  /** How one directive is consumed. */
  lemma FormatDirective(c: char, rest: string, args: seq<Arg>, k: nat, out: Output)
    requires c == 'd' || c == 's' || c == '%'
    ensures var p := Convert(c, Directive(NO_FLAGS, -1, -1, '\0', [c] + rest, 0), args, k, |out.text|);
            Format(['%', c] + rest, args, k, out) ==
            Format(rest, args, k + p.used, Output(out.text + p.text, out.counts + p.counts))
  {
    hide ParseDirective, Convert;
    var f := ['%', c] + rest;
    assert f[1..] == [c] + rest && ([c] + rest)[1..] == rest;
    BareDirective(c, rest, args, k);
  }

  lemma PercentPercent(rest: string, args: seq<Arg>, k: nat, out: Output)
    ensures Format("%%" + rest, args, k, out) == Format(rest, args, k, out.(text := out.text + "%"))
  {
    hide Format;
    FormatDirective('%', rest, args, k, out);
    assert out.counts + [] == out.counts;
  }

  lemma FormatPlain(c: char, rest: string, args: seq<Arg>, k: nat, out: Output)
    requires c != '%'
    ensures Format([c] + rest, args, k, out) == Format(rest, args, k, out.(text := out.text + [c]))
  {
    hide ParseDirective, Convert;
    assert ([c] + rest)[1..] == rest;
  }

  /** Any text comes out as it is once its percent signs are doubled, whatever the arguments. */
  lemma {:induction false} EscapedTextIsVerbatim(s: string, args: seq<Arg>, k: nat, out: Output)
    ensures Format(Escaped(s), args, k, out) == out.(text := out.text + s)
    decreases |s|
  {
    hide ParseDirective, Convert;
    if s == "" {
      assert out.text + s == out.text;
    } else {
      var tail := Escaped(s[1..]);
      if s[0] == '%' {
        PercentPercent(tail, args, k, out);
      } else {
        FormatPlain(s[0], tail, args, k, out);
      }
      var out' := out.(text := out.text + [s[0]]);
      EscapedTextIsVerbatim(s[1..], args, k, out');
      assert out.text + s == out'.text + s[1..];
    }
  }

  /** A format that ends inside a directive prints one percent sign for it, and that is the end. */
  lemma TruncatedDirective(f: string, args: seq<Arg>, k: nat, out: Output)
    requires f != "" && f[0] == '%' && ParseDirective(f[1..], args, k).rest == ""
    ensures Format(f, args, k, out) == out.(text := out.text + "%")
  {
    hide ParseDirective;
    var d := ParseDirective(f[1..], args, k);
    assert out.counts + [] == out.counts;
  }

  /** A plain `%d` prints its argument in signed decimal and goes on with the next one. */
  lemma DecimalDirective(rest: string, args: seq<Arg>, k: nat, out: Output, v: Long)
    requires k < |args| && args[k] == Int(v)
    ensures Format("%d" + rest, args, k, out) ==
            Format(rest, args, k + 1, out.(text := out.text + NumberText(v, 10, -1, -1, SIGNED)))
  {
    hide NumberText, Format;
    FormatDirective('d', rest, args, k, out);
    assert out.counts + [] == out.counts;
  }

  /** A plain `%s` prints its string, or `<NULL>` if there is none. */
  lemma StringDirective(rest: string, args: seq<Arg>, k: nat, out: Output, s: Option<string>)
    requires k < |args| && args[k] == Str(s)
    ensures Format("%s" + rest, args, k, out) ==
            Format(rest, args, k + 1, out.(text := out.text + if s.None? then "<NULL>" else s.value))
  {
    hide Format, Repeat;
    FormatDirective('s', rest, args, k, out);
    assert out.counts + [] == out.counts;
    var t := if s.None? then "<NULL>" else s.value;
    RepeatNone(' ', -1 - |t|, t);
  }

  /** Everything produced is kept, and no count stored by `%n` exceeds the length of the output. */
  lemma {:induction false} OutputGrows(f: string, args: seq<Arg>, k: nat, out: Output)
    requires forall i :: 0 <= i < |out.counts| ==> out.counts[i] <= |out.text|
    ensures out.text <= Format(f, args, k, out).text && out.counts <= Format(f, args, k, out).counts
    ensures var r := Format(f, args, k, out);
            forall i :: 0 <= i < |r.counts| ==> r.counts[i] <= |r.text|
    decreases |f|
  {
    hide Convert, ParseDirective;
    if f != "" {
      if f[0] != '%' {
        OutputGrows(f[1..], args, k, out.(text := out.text + [f[0]]));
      } else {
        var d := ParseDirective(f[1..], args, k);
        DirectiveShortens(f[1..], args, k);
        var p := Convert(Head(d.rest), d, args, k + d.used, |out.text|);
        CountsAreLengths(Head(d.rest), d, args, k + d.used, |out.text|);
        OutputGrows(Rest(d.rest), args, k + d.used + p.used, Output(out.text + p.text, out.counts + p.counts));
      }
    }
  }

  lemma CountsAreLengths(c: char, d: Directive, args: seq<Arg>, k: nat, len: nat)
    ensures forall i :: 0 <= i < |Convert(c, d, args, k, len).counts| ==> Convert(c, d, args, k, len).counts[i] == len
  {
    hide NumberText, Padded;
  }
}
