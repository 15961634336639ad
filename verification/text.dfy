/** The JavaScript string operations the backend relies on: `trim`, `split`,
    `join`, `toLowerCase` (ASCII), `startsWith`, substring tests, `Number#toString`
    and `parseInt`, each with the laws the rest of the model uses. */
module Text {
  import opened Wrappers

  // ---------------------------------------------------------------- characters

  /** `\w` in a JavaScript regular expression without the `u` flag. */
  predicate IsWordChar(c: char) {
    ('a' <= c <= 'z') || ('A' <= c <= 'Z') || ('0' <= c <= '9') || c == '_'
  }

  predicate IsDigit(c: char) {
    '0' <= c <= '9'
  }

  predicate AllWordChars(s: string) {
    forall i :: 0 <= i < |s| ==> IsWordChar(s[i])
  }

  predicate AllDigits(s: string) {
    forall i :: 0 <= i < |s| ==> IsDigit(s[i])
  }

  /** The characters `String.prototype.trim` removes: WhiteSpace and LineTerminator
      of ECMA-262 (tab, VT, FF, space, NBSP, BOM, the Zs category, LF, CR, LS, PS). */
  predicate IsJsWhitespace(c: char) {
    c == '\t' || c == '\n' || c == '\U{000B}' || c == '\U{000C}' || c == '\r' || c == ' ' ||
    c == '\U{00A0}' || c == '\U{1680}' || ('\U{2000}' <= c <= '\U{200A}') ||
    c == '\U{2028}' || c == '\U{2029}' || c == '\U{202F}' || c == '\U{205F}' ||
    c == '\U{3000}' || c == '\U{FEFF}'
  }

  /** ASCII case folding, as `toLowerCase` does on ASCII text. */
  function LowerChar(c: char): (d: char)
    ensures IsWordChar(c) ==> IsWordChar(d)
    ensures !('A' <= d <= 'Z')
  {
    if 'A' <= c <= 'Z' then (c as int - 'A' as int + 'a' as int) as char else c
  }

  function Lower(s: string): (r: string)
    ensures |r| == |s|
    ensures forall i :: 0 <= i < |s| ==> r[i] == LowerChar(s[i])
  {
    seq(|s|, i requires 0 <= i < |s| => LowerChar(s[i]))
  }

  lemma {:induction false} LowerIdempotent(s: string)
    ensures Lower(Lower(s)) == Lower(s)
  {
    assert forall i :: 0 <= i < |s| ==> LowerChar(LowerChar(s[i])) == LowerChar(s[i]);
  }

  // ---------------------------------------------------------------- prefixes and substrings

  /** `String.prototype.indexOf` for one character: the first position holding it. */
  function IndexOf(s: string, c: char): (r: Option<nat>)
    ensures r.Some? ==> r.value < |s| && s[r.value] == c && c !in s[..r.value]
    ensures r.None? <==> c !in s
  {
    if |s| == 0 then None
    else if s[0] == c then Some(0)
    else match IndexOf(s[1..], c)
      case None => None
      case Some(k) =>
        assert s[..k + 1] == [s[0]] + s[1..][..k];
        Some(k + 1)
  }

  /** The first position is the only one before which the character does not occur. */
  lemma {:induction false} IndexOfUnique(s: string, c: char, k: nat)
    requires k < |s| && s[k] == c && c !in s[..k]
    ensures IndexOf(s, c) == Some(k)
  {
    if k > 0 {
      assert s[0] in s[..k];
      assert s[1..][..k - 1] == s[1..k];
      assert forall x :: x in s[1..k] ==> x in s[..k];
      IndexOfUnique(s[1..], c, k - 1);
    }
  }

  /** `prefix` is a prefix of `s`. */
  predicate StartsWith<T(==)>(s: seq<T>, prefix: seq<T>) {
    |prefix| <= |s| && s[..|prefix|] == prefix
  }

  predicate EndsWith(s: string, suffix: string) {
    |suffix| <= |s| && s[|s| - |suffix|..] == suffix
  }

  /** `s.includes(sub)`, equivalently `/sub/.test(s)` for a literal pattern. */
  predicate Contains(s: string, sub: string) {
    exists i :: 0 <= i <= |s| && StartsWith(s[i..], sub)
  }

  /** A regular expression made of literal alternatives, `/a|b|c/`, matches iff
      one alternative occurs somewhere in the text. */
  predicate ContainsAny(s: string, alternatives: seq<string>) {
    exists k :: 0 <= k < |alternatives| && Contains(s, alternatives[k])
  }

  // ---------------------------------------------------------------- trim

  function TrimStart(s: string): (r: string)
    ensures |r| <= |s| && r == s[|s| - |r|..]
    ensures r == [] || !IsJsWhitespace(r[0])
    ensures forall i :: 0 <= i < |s| - |r| ==> IsJsWhitespace(s[i])
  {
    if |s| > 0 && IsJsWhitespace(s[0]) then TrimStart(s[1..]) else s
  }

  function TrimEnd(s: string): (r: string)
    ensures |r| <= |s| && r == s[..|r|]
    ensures r == [] || !IsJsWhitespace(r[|r| - 1])
    ensures forall i :: |r| <= i < |s| ==> IsJsWhitespace(s[i])
  {
    if |s| > 0 && IsJsWhitespace(s[|s| - 1]) then TrimEnd(s[..|s| - 1]) else s
  }

  /** No whitespace at either end. */
  predicate Trimmed(s: string) {
    s == [] || (!IsJsWhitespace(s[0]) && !IsJsWhitespace(s[|s| - 1]))
  }

  /** `String.prototype.trim`: leading whitespace is dropped one character at a
      time, then trailing whitespace; the result has none at either end. */
  function Trim(s: string): (r: string)
    ensures Trimmed(r) && |r| <= |s|
  {
    if |s| > 0 && IsJsWhitespace(s[0]) then Trim(s[1..]) else TrimEnd(s)
  }

  /** How many whitespace characters open the string: what `trim` drops from the front. */
  function LeadingWhitespace(s: string): (n: nat)
    ensures n <= |s|
  {
    if |s| > 0 && IsJsWhitespace(s[0]) then 1 + LeadingWhitespace(s[1..]) else 0
  }

  /** The result of trimming is one contiguous stretch of the input, and
      everything before and after it is whitespace. */
  lemma {:induction false} TrimIsMiddle(s: string)
    ensures var a := LeadingWhitespace(s);
            && a + |Trim(s)| <= |s| && Trim(s) == s[a..a + |Trim(s)|]
            && (forall i :: 0 <= i < a ==> IsJsWhitespace(s[i]))
            && (forall i :: a + |Trim(s)| <= i < |s| ==> IsJsWhitespace(s[i]))
  {
    if |s| > 0 && IsJsWhitespace(s[0]) {
      TrimIsMiddle(s[1..]);
      ShiftMiddle(s, LeadingWhitespace(s[1..]), |Trim(s[1..])|);
    } else {
      var r := TrimEnd(s);
      assert s[0..|r|] == s[..|r|];
    }
  }

  /** A stretch of `s[1..]` framed by whitespace, with `s[0]` whitespace, is a
      stretch of `s` one further on, framed by whitespace. */
  lemma ShiftMiddle(s: string, a: nat, n: nat)
    requires |s| > 0 && IsJsWhitespace(s[0]) && a + n <= |s| - 1
    requires forall i :: 0 <= i < a ==> IsJsWhitespace(s[1..][i])
    requires forall i :: a + n <= i < |s| - 1 ==> IsJsWhitespace(s[1..][i])
    ensures s[1..][a..a + n] == s[a + 1..a + 1 + n]
    ensures forall i :: 0 <= i < a + 1 ==> IsJsWhitespace(s[i])
    ensures forall i :: a + 1 + n <= i < |s| ==> IsJsWhitespace(s[i])
  {
    forall i | 0 < i < a + 1 ensures IsJsWhitespace(s[i]) {
      assert s[i] == s[1..][i - 1];
    }
    forall i | a + 1 + n <= i < |s| ensures IsJsWhitespace(s[i]) {
      assert s[i] == s[1..][i - 1];
    }
  }

  /** Trimming only cuts characters away, and empties exactly the strings of
      whitespace. */
  lemma {:induction false} TrimCuts(s: string)
    ensures forall i :: 0 <= i < |Trim(s)| ==> Trim(s)[i] in s
    ensures Trim(s) == "" <==> forall i :: 0 <= i < |s| ==> IsJsWhitespace(s[i])
  {
    if |s| > 0 && IsJsWhitespace(s[0]) {
      TrimCuts(s[1..]);
      forall i | 0 <= i < |Trim(s)| ensures Trim(s)[i] in s {
        assert Trim(s)[i] in s[1..];
      }
      if Trim(s) == "" {
        forall i | 0 <= i < |s| ensures IsJsWhitespace(s[i]) {
          if i > 0 { assert s[i] == s[1..][i - 1]; }
        }
      }
    } else {
      var r := TrimEnd(s);
      assert forall i :: 0 <= i < |r| ==> r[i] == s[i];
    }
  }

  lemma {:induction false} TrimOfTrimmed(s: string)
    requires Trimmed(s)
    ensures Trim(s) == s
  {
    assert TrimEnd(s) == s;
  }

  lemma TrimIdempotent(s: string)
    ensures Trim(Trim(s)) == Trim(s)
  {
    TrimOfTrimmed(Trim(s));
  }

  // ---------------------------------------------------------------- split and join

  /** `s.split(c)` for a one-character separator: the pieces between separators,
      always at least one (the empty string splits into `[""]`). */
  function Split(s: string, c: char): (parts: seq<string>)
    ensures |parts| >= 1
    ensures forall i :: 0 <= i < |parts| ==> c !in parts[i]
  {
    if |s| == 0 then [""]
    else
      var rest := Split(s[1..], c);
      if s[0] == c then [""] + rest
      else [[s[0]] + rest[0]] + rest[1..]
  }

  /** `parts.join(sep)`. */
  function Join(parts: seq<string>, sep: string): string {
    if |parts| == 0 then ""
    else if |parts| == 1 then parts[0]
    else parts[0] + sep + Join(parts[1..], sep)
  }

  lemma {:induction false} SplitCons(a: string, c: char, b: string)
    requires c !in a
    ensures Split(a + [c] + b, c) == [a] + Split(b, c)
  {
    if |a| == 0 {
      assert (a + [c] + b)[1..] == b;
    } else {
      assert (a + [c] + b)[1..] == a[1..] + [c] + b;
      SplitCons(a[1..], c, b);
      assert [a[0]] + a[1..] == a;
    }
  }

  lemma {:induction false} SplitNoSeparator(a: string, c: char)
    requires c !in a
    ensures Split(a, c) == [a]
  {
    if |a| > 0 {
      SplitNoSeparator(a[1..], c);
      assert [a[0]] + a[1..] == a;
    }
  }

  /** Splitting a join on a separator that no part contains gives the parts back. */
  lemma {:induction false} SplitJoin(parts: seq<string>, c: char)
    requires |parts| >= 1
    requires forall i :: 0 <= i < |parts| ==> c !in parts[i]
    ensures Split(Join(parts, [c]), c) == parts
  {
    if |parts| == 1 {
      SplitNoSeparator(parts[0], c);
    } else {
      SplitJoin(parts[1..], c);
      SplitCons(parts[0], c, Join(parts[1..], [c]));
      assert parts == [parts[0]] + parts[1..];
    }
  }

  /** Joining the pieces of a split restores the text. */
  lemma {:induction false} JoinSplit(s: string, c: char)
    ensures Join(Split(s, c), [c]) == s
  {
    if |s| > 0 {
      var rest := Split(s[1..], c);
      JoinSplit(s[1..], c);
      if s[0] == c {
        assert Split(s, c) == [""] + rest;
        assert ([""] + rest)[1..] == rest;
        assert s == [c] + s[1..];
      } else {
        var parts := Split(s, c);
        assert parts == [[s[0]] + rest[0]] + rest[1..];
        if |rest| == 1 {
          assert s == [s[0]] + s[1..];
        } else {
          assert parts[1..] == rest[1..];
          assert Join(rest, [c]) == rest[0] + [c] + Join(rest[1..], [c]);
          assert s == [s[0]] + s[1..];
        }
      }
    }
  }

  // ---------------------------------------------------------------- comma-separated lists

  function TrimAll(parts: seq<string>): (r: seq<string>)
    ensures |r| == |parts|
    ensures forall i :: 0 <= i < |parts| ==> r[i] == Trim(parts[i])
  {
    seq(|parts|, i requires 0 <= i < |parts| => Trim(parts[i]))
  }

  /** `filter(x => x)` on strings: drop the empty ones, keep the order. */
  function DropEmpty(parts: seq<string>): (r: seq<string>)
    ensures |r| <= |parts|
    ensures forall x :: x in r <==> x in parts && x != ""
  {
    if |parts| == 0 then []
    else if parts[0] == "" then DropEmpty(parts[1..])
    else [parts[0]] + DropEmpty(parts[1..])
  }

  /** An entry of a clean comma list: non-empty, no whitespace at the ends, no comma. */
  predicate CleanItem(x: string) {
    x != "" && Trimmed(x) && ',' !in x
  }

  /** `s.split(',').map(x => x.trim()).filter(x => x)`, the parsing of tags and
      of a favourite-genres string. */
  function CommaList(s: string): (items: seq<string>)
    ensures forall x :: x in items ==> CleanItem(x)
  {
    var parts := Split(s, ',');
    var trimmed := TrimAll(parts);
    forall i | 0 <= i < |trimmed| ensures ',' !in trimmed[i] {
      TrimCuts(parts[i]);
    }
    DropEmpty(trimmed)
  }

  lemma {:induction false} DropEmptyOfNonEmpty(parts: seq<string>)
    requires forall i :: 0 <= i < |parts| ==> parts[i] != ""
    ensures DropEmpty(parts) == parts
  {
    if |parts| > 0 {
      DropEmptyOfNonEmpty(parts[1..]);
    }
  }

  /** Trimming entries that are already clean changes none of them. */
  lemma TrimAllOfClean(items: seq<string>)
    requires forall x :: x in items ==> CleanItem(x)
    ensures TrimAll(items) == items
  {
    forall i | 0 <= i < |items| ensures Trim(items[i]) == items[i] {
      assert items[i] in items;
      TrimOfTrimmed(items[i]);
    }
  }

  /** Parsing the comma join of clean entries returns exactly those entries. */
  lemma CommaListJoin(items: seq<string>)
    requires |items| >= 1
    requires forall i :: 0 <= i < |items| ==> CleanItem(items[i])
    ensures CommaList(Join(items, ",")) == items
  {
    SplitJoin(items, ',');
    forall i | 0 <= i < |items| ensures Trim(items[i]) == items[i] {
      TrimOfTrimmed(items[i]);
    }
    assert TrimAll(items) == items;
    DropEmptyOfNonEmpty(items);
  }

  // ---------------------------------------------------------------- numbers as text

  function DigitChar(d: nat): (c: char)
    requires d < 10
    ensures IsDigit(c)
  {
    "0123456789"[d]
  }

  /** `String(n)` for a non-negative integer. */
  function NatToString(n: nat): (s: string)
    ensures |s| >= 1 && AllDigits(s)
    ensures n < 10 <==> |s| == 1
    decreases n
  {
    if n < 10 then [DigitChar(n)] else NatToString(n / 10) + [DigitChar(n % 10)]
  }

  /** The number a string of decimal digits denotes. */
  function DigitsValue(s: string): nat
    requires AllDigits(s)
  {
    if s == [] then 0
    else DigitsValue(s[..|s| - 1]) * 10 + (s[|s| - 1] as int - '0' as int)
  }

  /** Reading back the decimal text of a number gives the number. */
  lemma {:induction false} NatToStringValue(n: nat)
    ensures DigitsValue(NatToString(n)) == n
    decreases n
  {
    var s := NatToString(n);
    if n >= 10 {
      NatToStringValue(n / 10);
      assert s[..|s| - 1] == NatToString(n / 10);
    }
  }

  /** `s.padStart(width, '0')`. */
  function PadStartZeros(s: string, width: nat): (r: string)
    ensures |r| == if |s| >= width then |s| else width
    ensures EndsWith(r, s)
  {
    if |s| >= width then s else seq(width - |s|, _ => '0') + s
  }

  // ---------------------------------------------------------------- parseInt

  /** The longest prefix of `s` made of decimal digits. */
  function DigitPrefix(s: string): (p: string)
    ensures AllDigits(p) && StartsWith(s, p)
    ensures |p| < |s| ==> !IsDigit(s[|p|])
  {
    if |s| > 0 && IsDigit(s[0]) then [s[0]] + DigitPrefix(s[1..]) else []
  }

  predicate IsHexDigit(c: char) {
    IsDigit(c) || ('a' <= c <= 'f') || ('A' <= c <= 'F')
  }

  predicate AllHexDigits(s: string) {
    forall i :: 0 <= i < |s| ==> IsHexDigit(s[i])
  }

  /** The longest prefix of `s` made of hexadecimal digits. */
  function HexDigitPrefix(s: string): (p: string)
    ensures AllHexDigits(p) && StartsWith(s, p)
    ensures |p| < |s| ==> !IsHexDigit(s[|p|])
  {
    if |s| > 0 && IsHexDigit(s[0]) then [s[0]] + HexDigitPrefix(s[1..]) else []
  }

  function HexDigitValue(c: char): nat
    requires IsHexDigit(c)
  {
    if IsDigit(c) then c as int - '0' as int
    else if 'a' <= c <= 'f' then c as int - 'a' as int + 10
    else c as int - 'A' as int + 10
  }

  /** The number a string of hexadecimal digits denotes. */
  function HexValue(s: string): nat
    requires AllHexDigits(s)
  {
    if s == [] then 0 else HexValue(s[..|s| - 1]) * 16 + HexDigitValue(s[|s| - 1])
  }

  /** `0x` or `0X` at the front: `parseInt` without a radix then reads base 16. */
  predicate HasHexPrefix(u: string) {
    |u| >= 2 && u[0] == '0' && (u[1] == 'x' || u[1] == 'X')
  }

  /** `parseInt(s)` without a radix: leading whitespace is skipped, one sign is
      read, then a `0x` prefix selects base 16, otherwise base 10; the value is
      that of the longest digit prefix, and no digit at all means NaN (None). */
  function ParseInt(s: string): (r: Option<int>)
    ensures r.Some? <==> Magnitude(SignStripped(TrimStart(s))).Some?
  {
    var t := TrimStart(s);
    match Magnitude(SignStripped(t))
    case None => None
    case Some(m) => Some(if |t| > 0 && t[0] == '-' then -(m as int) else m as int)
  }

  /** The unsigned number at the front of `u`, in base 16 after `0x`, in base 10
      otherwise; None when no digit follows. */
  function Magnitude(u: string): (m: Option<nat>)
    ensures m.Some? <==> if HasHexPrefix(u) then |HexDigitPrefix(u[2..])| > 0 else |DigitPrefix(u)| > 0
  {
    if HasHexPrefix(u) then
      var digits := HexDigitPrefix(u[2..]);
      if |digits| == 0 then None else Some(HexValue(digits))
    else
      var digits := DigitPrefix(u);
      if |digits| == 0 then None else Some(DigitsValue(digits))
  }

  /** `String(x)` for an integer. */
  function IntToString(x: int): (s: string)
    ensures x >= 0 ==> s == NatToString(x)
    ensures x < 0 ==> s == "-" + NatToString(-x)
  {
    if x >= 0 then NatToString(x) else "-" + NatToString(-x)
  }

  function SignStripped(t: string): string {
    if |t| > 0 && (t[0] == '-' || t[0] == '+') then t[1..] else t
  }

  lemma {:induction false} DigitPrefixOfDigits(s: string)
    requires AllDigits(s)
    ensures DigitPrefix(s) == s
  {
    if |s| > 0 {
      DigitPrefixOfDigits(s[1..]);
      assert [s[0]] + s[1..] == s;
    }
  }

  /** `parseInt(String(n)) === n` for every non-negative integer. */
  lemma ParseIntOfNatToString(n: nat)
    ensures ParseInt(NatToString(n)) == Some(n)
  {
    ParseIntOfDigits(NatToString(n));
    NatToStringValue(n);
  }

  lemma ParseIntOfDigits(s: string)
    requires |s| > 0 && AllDigits(s)
    ensures ParseInt(s) == Some(DigitsValue(s) as int)
  {
    DigitFirstUntouched(s);
    MagnitudeOfDigits(s);
  }

  /** Neither whitespace trimming nor sign stripping touches a string that starts with a digit. */
  lemma DigitFirstUntouched(s: string)
    requires |s| > 0 && IsDigit(s[0])
    ensures TrimStart(s) == s && SignStripped(s) == s
  {
    assert !IsJsWhitespace(s[0]);
  }

  lemma MagnitudeOfDigits(s: string)
    requires |s| > 0 && AllDigits(s)
    ensures Magnitude(s) == Some(DigitsValue(s))
  {
    if |s| >= 2 {
      assert IsDigit(s[1]);
    }
    assert !HasHexPrefix(s);
    DigitPrefixOfDigits(s);
  }
}
