/** Byte sizes as configuration text (internal/sentinel/config/config.go): "512KB", "1GB", "1024". */
module ByteSize {
  import opened Wrappers
  import opened GoTime

  const KB := 1024
  const MB := 1024 * KB
  const GB := 1024 * MB

  // ---- decimal text ----

  function DigitChar(d: nat): char
    requires d < 10
  {
    '0' + d as char
  }

  predicate IsDigit(c: char) { '0' <= c <= '9' }

  function DigitValue(c: char): (d: nat)
    requires IsDigit(c)
    ensures d < 10
  {
    (c - '0') as nat
  }

  predicate IsDigits(s: string) { forall i :: 0 <= i < |s| ==> IsDigit(s[i]) }

  function Digits(n: nat): (s: string)
    ensures |s| >= 1 && IsDigits(s)
  {
    if n < 10 then [DigitChar(n)] else Digits(n / 10) + [DigitChar(n % 10)]
  }

  function Number(s: string): nat
    requires IsDigits(s)
  {
    if s == "" then 0 else 10 * Number(s[..|s| - 1]) + DigitValue(s[|s| - 1])
  }

  lemma DigitRoundTrip(d: nat)
    requires d < 10
    ensures IsDigit(DigitChar(d)) && DigitValue(DigitChar(d)) == d
  {}

  lemma {:induction false} NumberOfDigits(n: nat)
    ensures Number(Digits(n)) == n
  {
    DigitRoundTrip(n % 10);
    var s := Digits(n);
    if n < 10 {
      assert s[..0] == "";
      assert n % 10 == n;
    } else {
      NumberOfDigits(n / 10);
      assert s[..|s| - 1] == Digits(n / 10);
    }
  }

  /** `strconv.FormatInt(v, 10)` */
  function FormatInt(v: int): string {
    if v < 0 then "-" + Digits(-v) else Digits(v)
  }

  /** `strconv.ParseInt(s, 10, 64)`; None stands for a syntax or a range error. */
  function ParseInt(s: string): (r: Option<int>)
    ensures r.Some? ==> MIN_INT64 <= r.value <= MAX_INT64
  {
    var signed := s != "" && (s[0] == '-' || s[0] == '+');
    var digits := if signed then s[1..] else s;
    if digits == "" || !IsDigits(digits) then None
    else
      var v: int := if signed && s[0] == '-' then -(Number(digits) as int) else Number(digits);
      if MIN_INT64 <= v <= MAX_INT64 then Some(v) else None
  }

  lemma ParseFormat(v: int)
    requires MIN_INT64 <= v <= MAX_INT64
    ensures ParseInt(FormatInt(v)) == Some(v)
  {
    hide Digits, Number;
    var n := if v < 0 then -v else v;
    NumberOfDigits(n);
    if v < 0 {
      assert FormatInt(v)[1..] == Digits(n);
    } else {
      DigitIsNoSign(Digits(n)[0]);
    }
  }

  lemma DigitIsNoSign(c: char)
    requires IsDigit(c)
    ensures c != '-' && c != '+'
  {}

  // ---- trimming and upper case ----

  /** Unicode white space. */
  predicate IsSpace(c: char) {
    var u := c as int;
    || 9 <= u <= 13 || u == 32 || u == 0x85 || u == 0xA0 || u == 0x1680 || 0x2000 <= u <= 0x200A
    || u == 0x2028 || u == 0x2029 || u == 0x202F || u == 0x205F || u == 0x3000
  }

  function TrimLeft(s: string): string {
    if s != "" && IsSpace(s[0]) then TrimLeft(s[1..]) else s
  }

  function TrimRight(s: string): string {
    if s != "" && IsSpace(s[|s| - 1]) then TrimRight(s[..|s| - 1]) else s
  }

  function TrimSpace(s: string): string { TrimRight(TrimLeft(s)) }

  function Upper(c: char): char { if 'a' <= c <= 'z' then c - 32 as char else c }

  function ToUpper(s: string): string { seq(|s|, i requires 0 <= i < |s| => Upper(s[i])) }

  predicate HasSuffix(s: string, suffix: string) { |s| >= |suffix| && s[|s| - |suffix|..] == suffix }

  // ---- the two directions ----

  const SUFFIXES: seq<(string, int)> := [("GB", GB), ("MB", MB), ("KB", KB)]

  function MarshalText(v: int): string {
    if v > 0 && v % GB == 0 then FormatInt(v / GB) + "GB"
    else if v > 0 && v % MB == 0 then FormatInt(v / MB) + "MB"
    else if v > 0 && v % KB == 0 then FormatInt(v / KB) + "KB"
    else FormatInt(v)
  }

  /** The suffix that applies, if any, is the first of the table that fits. */
  function Scale(s: string): (r: (string, int))
    ensures |r.0| <= |s| && r.1 > 0
  {
    if HasSuffix(s, "GB") then ("GB", GB)
    else if HasSuffix(s, "MB") then ("MB", MB)
    else if HasSuffix(s, "KB") then ("KB", KB)
    else ("", 1)
  }

  function Unmarshalled(text: string): Option<int> {
    var s := ToUpper(TrimSpace(text));
    var (suffix, mult) := Scale(s);
    var n := ParseInt(s[..|s| - |suffix|]);
    if n.None? then None else Some(Wrap64(n.value * mult))
  }

  method UnmarshalText(text: string) returns (r: Option<int>)
    ensures r == Unmarshalled(text)
  {
    hide ParseInt, TrimSpace, ToUpper, Wrap64;
    var s := ToUpper(TrimSpace(text));
    var i := 0;
    while i < |SUFFIXES|
      invariant 0 <= i <= |SUFFIXES|
      invariant forall k :: 0 <= k < i ==> !HasSuffix(s, SUFFIXES[k].0)
    {
      var (suffix, mult) := SUFFIXES[i];
      if HasSuffix(s, suffix) {
        assert Scale(s) == (suffix, mult) by { FirstSuffix(s, i); }
        var n := ParseInt(s[..|s| - |suffix|]);
        if n.None? {
          return None;
        }
        return Some(Wrap64(n.value * mult));
      }
      i := i + 1;
    }
    NoSuffix(s);
    assert s[..|s| - 0] == s;
    var n := ParseInt(s);
    if n.None? {
      return None;
    }
    ScaleOne(n.value);
    r := Some(Wrap64(n.value));
  }

  lemma ScaleOne(n: int)
    ensures n * 1 == n
  {}

  lemma FirstSuffix(s: string, i: nat)
    requires i < |SUFFIXES| && HasSuffix(s, SUFFIXES[i].0) && forall k :: 0 <= k < i ==> !HasSuffix(s, SUFFIXES[k].0)
    ensures Scale(s) == SUFFIXES[i]
  {
    assert SUFFIXES[0].0 == "GB" && SUFFIXES[1].0 == "MB" && SUFFIXES[2].0 == "KB";
    if i > 0 { assert !HasSuffix(s, SUFFIXES[0].0); }
    if i > 1 { assert !HasSuffix(s, SUFFIXES[1].0); }
  }

  lemma NoSuffix(s: string)
    requires forall k :: 0 <= k < |SUFFIXES| ==> !HasSuffix(s, SUFFIXES[k].0)
    ensures Scale(s) == ("", 1)
  {
    assert !HasSuffix(s, SUFFIXES[0].0) && !HasSuffix(s, SUFFIXES[1].0) && !HasSuffix(s, SUFFIXES[2].0);
  }

  /** Text that starts with a digit or a minus sign, ends with a digit or a B, and has no lower case. */
  predicate Clean(s: string) {
    && s != "" && !IsSpace(s[0]) && !IsSpace(s[|s| - 1])
    && forall i :: 0 <= i < |s| ==> !('a' <= s[i] <= 'z')
  }

  lemma CleanUntouched(s: string)
    requires Clean(s)
    ensures ToUpper(TrimSpace(s)) == s
  {
    assert TrimSpace(s) == s;
    forall i | 0 <= i < |s| ensures ToUpper(s)[i] == s[i] {}
  }

  lemma FormatClean(v: int)
    ensures Clean(FormatInt(v)) && IsDigit(FormatInt(v)[|FormatInt(v)| - 1])
  {
    var s := FormatInt(v);
    var digits := Digits(if v < 0 then -v else v);
    assert s[|s| - 1] == digits[|digits| - 1];
    assert forall i :: 0 <= i < |s| ==> s[i] == '-' || IsDigit(s[i]);
  }

  lemma UnitMeans(n: int, suffix: string, mult: int)
    requires (suffix, mult) in SUFFIXES && MIN_INT64 <= n <= MAX_INT64
    ensures Unmarshalled(FormatInt(n) + suffix) == Some(Wrap64(n * mult))
  {
    hide TrimSpace, ToUpper, ParseInt, FormatInt, Wrap64;
    var head := FormatInt(n);
    var s := head + suffix;
    FormatClean(n);
    SuffixClean(head, suffix, mult);
    CleanUntouched(s);
    SuffixFound(head, suffix, mult);
    assert s[..|s| - |suffix|] == head;
    ParseFormat(n);
  }

  /** A marshalled value with suffix parses back, without overflow. */
  lemma WithSuffix(v: int, suffix: string, mult: int)
    requires (suffix, mult) in SUFFIXES && 0 < v <= MAX_INT64 && v % mult == 0
    ensures Unmarshalled(FormatInt(v / mult) + suffix) == Some(v)
  {
    hide Unmarshalled, FormatInt;
    QuotientBounds(v, mult);
    UnitMeans(v / mult, suffix, mult);
  }

  lemma QuotientBounds(v: int, mult: int)
    requires 0 < v <= MAX_INT64 && mult in {KB, MB, GB} && v % mult == 0
    ensures 0 <= v / mult <= MAX_INT64 && v / mult * mult == v
  {
    if mult == KB {} else if mult == MB {} else {}
  }

  lemma SuffixClean(head: string, suffix: string, mult: int)
    requires Clean(head) && (suffix, mult) in SUFFIXES
    ensures Clean(head + suffix)
  {
    assert suffix == "GB" || suffix == "MB" || suffix == "KB";
    assert (head + suffix)[0] == head[0];
  }

  /** The three suffixes exclude each other. */
  lemma SuffixFound(head: string, suffix: string, mult: int)
    requires (suffix, mult) in SUFFIXES
    ensures Scale(head + suffix) == (suffix, mult)
  {
    var s := head + suffix;
    assert suffix == "GB" || suffix == "MB" || suffix == "KB";
    assert s[|s| - 2..] == suffix;
    assert "GB"[0] != "MB"[0] && "MB"[0] != "KB"[0] && "GB"[0] != "KB"[0];
  }

  lemma DigitEnd(s: string)
    requires s != "" && IsDigit(s[|s| - 1])
    ensures Scale(s) == ("", 1)
  {
    forall suffix | |suffix| == 2 && suffix[1] == 'B'
      ensures !HasSuffix(s, suffix)
    {
      if |s| >= 2 {
        assert s[|s| - 2..][1] == s[|s| - 1];
      }
    }
  }

  /** For every int64: what was marshalled is read back, exactly. */
  lemma RoundTrip(v: int)
    requires MIN_INT64 <= v <= MAX_INT64
    ensures Unmarshalled(MarshalText(v)) == Some(v)
  {
    assert SUFFIXES[0] == ("GB", GB) && SUFFIXES[1] == ("MB", MB) && SUFFIXES[2] == ("KB", KB);
    hide Unmarshalled, FormatInt;
    if v > 0 && v % GB == 0 {
      WithSuffix(v, "GB", GB);
    } else if v > 0 && v % MB == 0 {
      WithSuffix(v, "MB", MB);
    } else if v > 0 && v % KB == 0 {
      WithSuffix(v, "KB", KB);
    } else {
      PlainRoundTrip(v);
    }
  }

  lemma PlainRoundTrip(v: int)
    requires MIN_INT64 <= v <= MAX_INT64
    ensures Unmarshalled(FormatInt(v)) == Some(v)
  {
    hide TrimSpace, ToUpper, ParseInt, FormatInt, Scale;
    var s := FormatInt(v);
    FormatClean(v);
    CleanUntouched(s);
    DigitEnd(s);
    assert s[..|s| - 0] == s;
    ParseFormat(v);
  }

  /** Text with anything outside ASCII left after trimming is refused; so how upper-casing treats such
      characters, none of which it turns into a digit, a sign or a letter of a suffix, does not matter. */
  lemma OutsideAsciiRefused(text: string, i: nat)
    requires i < |TrimSpace(text)| && TrimSpace(text)[i] as int >= 128
    ensures Unmarshalled(text) == None
  {
    hide TrimSpace, Wrap64;
    var s := ToUpper(TrimSpace(text));
    var (suffix, mult) := Scale(s);
    assert s[i] as int >= 128;
    ScaleTail(s);
    Undigital(s[..|s| - |suffix|], i);
  }

  lemma ScaleTail(s: string)
    ensures var n := |Scale(s).0|;
            forall k :: |s| - n <= k < |s| ==> s[k] as int < 128
  {
    var suffix := Scale(s).0;
    SuffixLetters(s);
    forall k | |s| - |suffix| <= k < |s| ensures s[k] as int < 128 {
      var j := k - (|s| - |suffix|);
      assert s[k] == s[|s| - |suffix|..][j] == suffix[j];
      assert suffix[j] in suffix;
    }
  }

  lemma SuffixLetters(s: string)
    ensures var suffix := Scale(s).0;
            HasSuffix(s, suffix) && forall c :: c in suffix ==> c in {'G', 'M', 'K', 'B'}
  {
    hide HasSuffix;
    assert HasSuffix(s, "") by { EmptySuffix(s); }
    assert "GB" == ['G', 'B'] && "MB" == ['M', 'B'] && "KB" == ['K', 'B'];
  }

  lemma EmptySuffix(s: string)
    ensures HasSuffix(s, "")
  {}

  lemma Undigital(s: string, i: nat)
    requires i < |s| && s[i] as int >= 128
    ensures ParseInt(s) == None
  {
    var signed := s[0] == '-' || s[0] == '+';
    var digits := if signed then s[1..] else s;
    assert digits[if signed then i - 1 else i] == s[i];
    assert !IsDigits(digits);
  }

  /** Reading is exact for a text with number n and unit m exactly when n * m fits an int64; else the
      product wraps without an error. */
  lemma ReadExactIff(text: string)
    requires Unmarshalled(text).Some?
    ensures var s := ToUpper(TrimSpace(text));
            var (suffix, mult) := Scale(s);
            ParseInt(s[..|s| - |suffix|]).Some?
            && var n := ParseInt(s[..|s| - |suffix|]).value;
               (Unmarshalled(text) == Some(n * mult) <==> MIN_INT64 <= n * mult <= MAX_INT64)
  {
    hide ParseInt, TrimSpace, ToUpper;
  }

  // ---- what a text means, and which text is written ----

  /** A number, signed or not, means that many bytes or, before a unit, kibi-, mebi- or gibibytes, wrapped. */
  lemma UnitsMean(n: int)
    requires MIN_INT64 <= n <= MAX_INT64
    ensures Unmarshalled(FormatInt(n)) == Some(n)
    ensures Unmarshalled(FormatInt(n) + "KB") == Some(Wrap64(n * 1024))
    ensures Unmarshalled(FormatInt(n) + "MB") == Some(Wrap64(n * 1_048_576))
    ensures Unmarshalled(FormatInt(n) + "GB") == Some(Wrap64(n * 1_073_741_824))
  {
    hide Unmarshalled, FormatInt, Wrap64;
    PlainRoundTrip(n);
    assert SUFFIXES[0] == ("GB", GB) && SUFFIXES[1] == ("MB", MB) && SUFFIXES[2] == ("KB", KB);
    UnitMeans(n, "KB", KB);
    UnitMeans(n, "MB", MB);
    UnitMeans(n, "GB", GB);
  }

  /** The numbers are decimal. */
  lemma Decimal(n: nat, d: nat)
    requires n > 0 && d < 10
    ensures FormatInt(d) == ["0123456789"[d]] && FormatInt(10 * n + d) == FormatInt(n) + ["0123456789"[d]]
    ensures FormatInt(-(n as int)) == "-" + FormatInt(n)
  {
    assert (10 * n + d) / 10 == n && (10 * n + d) % 10 == d;
  }

  /** Any digits are a number, if an int64 can hold it, with or without a sign in front; nothing else is. */
  lemma Unsigned(t: string)
    requires t == "" || (t[0] != '-' && t[0] != '+')
    ensures ParseInt(t) == if t != "" && IsDigits(t) && Number(t) <= MAX_INT64 then Some(Number(t)) else None
  {
    hide Number;
  }

  lemma Signed(t: string)
    ensures ParseInt("+" + t) == if t != "" && IsDigits(t) && Number(t) <= MAX_INT64 then Some(Number(t)) else None
    ensures ParseInt("-" + t) == if t != "" && IsDigits(t) && Number(t) <= MAX_INT64 + 1 then Some(-(Number(t) as int)) else None
  {
    hide Number, IsDigits;
    var plus, minus := "+" + t, "-" + t;
    assert plus[0] == '+' && plus[1..] == t && minus[0] == '-' && minus[1..] == t;
  }

  /** What is written: a positive value in the largest unit that divides it, any other in bytes. */
  lemma UnitWritten(v: int)
    ensures MarshalText(v) ==
            if v > 0 && v % 1_073_741_824 == 0 then FormatInt(v / 1_073_741_824) + "GB"
            else if v > 0 && v % 1_048_576 == 0 then FormatInt(v / 1_048_576) + "MB"
            else if v > 0 && v % 1024 == 0 then FormatInt(v / 1024) + "KB"
            else FormatInt(v)
  {
    hide FormatInt;
  }

  predicate Blank(s: string) {
    forall i :: 0 <= i < |s| ==> s[i] == ' ' || s[i] == '\t' || s[i] == '\n' || s[i] == '\r'
  }

  lemma {:induction false} BlankLeft(s: string, text: string)
    requires Blank(s)
    ensures TrimLeft(s + text) == TrimLeft(text)
  {
    if s == "" {
      assert s + text == text;
    } else {
      BlankLeft(s[1..], text);
      assert (s + text)[1..] == s[1..] + text;
    }
  }

  lemma {:induction false} BlankRight(text: string, s: string)
    requires Blank(s)
    ensures TrimRight(text + s) == TrimRight(text)
  {
    if s == "" {
      assert text + s == text;
    } else {
      BlankRight(text, s[..|s| - 1]);
      assert (text + s)[..|text + s| - 1] == text + s[..|s| - 1];
    }
  }

  function Lower(s: string): (lower: string)
    ensures |lower| == |s|
  {
    seq(|s|, i requires 0 <= i < |s| => if 'A' <= s[i] <= 'Z' then s[i] + 32 as char else s[i])
  }

  lemma TrimClean(s: string)
    requires s != "" && !IsSpace(s[0]) && !IsSpace(s[|s| - 1])
    ensures TrimSpace(s) == s
  {}

  lemma LowerNoSpace(c: char)
    ensures IsSpace(if 'A' <= c <= 'Z' then c + 32 as char else c) == IsSpace(c)
  {}

  /** Blanks around a text and lower case make no difference to what it means. */
  lemma BlanksAndCase(before: string, text: string, after: string)
    requires Blank(before) && Blank(after) && text != "" && !IsSpace(text[0]) && !IsSpace(text[|text| - 1])
    ensures Unmarshalled(before + Lower(text) + after) == Unmarshalled(text)
  {
    hide ParseInt, Wrap64, Scale, IsSpace;
    var lower := Lower(text);
    LowerNoSpace(text[0]);
    LowerNoSpace(text[|text| - 1]);
    TrimClean(text);
    TrimClean(lower);
    TrimAround(before, lower, after);
    UpperLower(text);
  }

  lemma UpperLower(text: string)
    ensures ToUpper(Lower(text)) == ToUpper(text)
  {}

  lemma TrimAround(before: string, text: string, after: string)
    requires Blank(before) && Blank(after) && text != "" && !IsSpace(text[0]) && !IsSpace(text[|text| - 1])
    ensures TrimSpace(before + text + after) == text
  {
    assert before + text + after == before + (text + after);
    BlankLeft(before, text + after);
    assert (text + after)[0] == text[0];
    assert TrimLeft(text + after) == text + after;
    BlankRight(text, after);
  }

  /** 2^53 kilobytes are read as a negative size. */
  lemma ReadWraps()
    ensures Unmarshalled(FormatInt(9007199254740992) + "KB") == Some(MIN_INT64)
  {
    hide TrimSpace, ToUpper, ParseInt, FormatInt;
    var head := FormatInt(9007199254740992);
    assert SUFFIXES[2] == ("KB", KB);
    FormatClean(9007199254740992);
    SuffixClean(head, "KB", KB);
    CleanUntouched(head + "KB");
    SuffixFound(head, "KB", KB);
    assert (head + "KB")[..|head + "KB"| - 2] == head;
    ParseFormat(9007199254740992);
    assert Wrap64(9007199254740992 * KB) == MIN_INT64;
  }
}
