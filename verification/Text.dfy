/** QString values as sequences of characters: key order, trimming and decimal numbers. */
module Text {
  import opened Wrappers

  const INT64_LIMIT: int := 0x8000_0000_0000_0000

  type int64 = x: int | -0x8000_0000_0000_0000 <= x < 0x8000_0000_0000_0000

  // ----- order of QString keys -----

  predicate Less(a: string, b: string) {
    if b == [] then false
    else if a == [] then true
    else if a[0] != b[0] then a[0] < b[0]
    else Less(a[1..], b[1..])
  }

  /** The order of texts by their first difference: the lower character first, and a text before its
      continuations. */
  ghost predicate Before(a: string, b: string) { exists i :: DiffersAt(a, b, i) }

  ghost predicate DiffersAt(a: string, b: string, i: int) {
    && 0 <= i <= |a| && i <= |b| && a[..i] == b[..i]
    && i < |b| && (i == |a| || a[i] < b[i])
  }

  lemma {:induction false} LessIsBefore(a: string, b: string)
    ensures Less(a, b) <==> Before(a, b)
  {
    if a == [] || b == [] || a[0] != b[0] {
      if b != [] && (a == [] || a[0] < b[0]) {
        assert DiffersAt(a, b, 0);
      }
    } else {
      LessIsBefore(a[1..], b[1..]);
      if i :| DiffersAt(a[1..], b[1..], i) {
        assert a[..i + 1] == [a[0]] + a[1..][..i] && b[..i + 1] == [b[0]] + b[1..][..i];
        assert DiffersAt(a, b, i + 1);
      }
      if i :| DiffersAt(a, b, i) {
        assert a[1..][..i - 1] == a[..i][1..] && b[1..][..i - 1] == b[..i][1..];
        assert DiffersAt(a[1..], b[1..], i - 1);
      }
    }
  }

  lemma LessIrreflexive(a: string)
    ensures !Less(a, a)
  {
  }

  lemma {:induction false} LessTransitive(a: string, b: string, c: string)
    requires Less(a, b) && Less(b, c)
    ensures Less(a, c)
  {
    if a == [] || a[0] != b[0] || b[0] != c[0] {
    } else {
      LessTransitive(a[1..], b[1..], c[1..]);
    }
  }

  lemma {:induction false} LessConnected(a: string, b: string)
    requires a != b
    ensures Less(a, b) || Less(b, a)
  {
    if a == [] || b == [] || a[0] != b[0] {
    } else {
      assert a == [a[0]] + a[1..] && b == [b[0]] + b[1..];
      LessConnected(a[1..], b[1..]);
    }
  }

  lemma LessTotal()
    ensures forall a :: !Less(a, a)
    ensures forall a, b, c :: Less(a, b) && Less(b, c) ==> Less(a, c)
    ensures forall a, b :: a != b ==> Less(a, b) || Less(b, a)
  {
    forall a ensures !Less(a, a) { LessIrreflexive(a); }
    forall a, b, c | Less(a, b) && Less(b, c) ensures Less(a, c) { LessTransitive(a, b, c); }
    forall a, b | a != b ensures Less(a, b) || Less(b, a) { LessConnected(a, b); }
  }

  // ----- the order in which the keys of a QMap are walked -----

  predicate IsLeastText(m: string, s: set<string>) {
    m in s && forall k :: k in s && k != m ==> Less(m, k)
  }

  lemma LeastTextExists(s: set<string>) returns (m: string)
    requires s != {}
    ensures IsLeastText(m, s)
  {
    var x :| x in s;
    if s == {x} {
      return x;
    }
    var rest := s - {x};
    assert s == rest + {x};
    var r := LeastTextExists(rest);
    LessConnected(x, r);
    m := if Less(x, r) then x else r;
    forall k | k in s && k != m ensures Less(m, k) {
      if k != x && k != r && m == x {
        LessTransitive(x, r, k);
      }
    }
  }

  lemma LeastTextUnique(m: string, n: string, s: set<string>)
    requires IsLeastText(m, s) && IsLeastText(n, s)
    ensures m == n
  {
    if m != n {
      LessTransitive(m, n, m);
      LessIrreflexive(m);
    }
  }

  function LeastText(s: set<string>): (m: string)
    requires s != {}
    ensures IsLeastText(m, s)
  {
    assert exists m :: IsLeastText(m, s) by { var m := LeastTextExists(s); }
    assert forall m, n :: IsLeastText(m, s) && IsLeastText(n, s) ==> m == n by {
      forall m, n | IsLeastText(m, s) && IsLeastText(n, s) ensures m == n { LeastTextUnique(m, n, s); }
    }
    var m :| m in s && IsLeastText(m, s);
    m
  }

  /** The keys of a QString-keyed QMap, in its iteration order. */
  function TextKeys(s: set<string>): (ks: seq<string>)
    ensures forall k :: k in ks <==> k in s
    decreases |s|
  {
    if s == {} then [] else [LeastText(s)] + TextKeys(s - {LeastText(s)})
  }

  lemma {:induction false} TextKeysAscending(s: set<string>)
    ensures forall i, j :: 0 <= i < j < |TextKeys(s)| ==> Less(TextKeys(s)[i], TextKeys(s)[j])
    decreases |s|
  {
    if s == {} {
    } else {
      var m := LeastText(s);
      TextKeysAscending(s - {m});
      forall j | 0 < j < |TextKeys(s)| ensures Less(m, TextKeys(s)[j]) {
        assert TextKeys(s)[j] == TextKeys(s - {m})[j - 1];
        assert TextKeys(s)[j] in TextKeys(s - {m});
      }
    }
  }

  /** There is only one way to walk a set in ascending order. */
  lemma {:induction false} AscendingUnique(a: seq<string>, b: seq<string>)
    requires forall i, j :: 0 <= i < j < |a| ==> Less(a[i], a[j])
    requires forall i, j :: 0 <= i < j < |b| ==> Less(b[i], b[j])
    requires forall k :: k in a <==> k in b
    ensures a == b
  {
    FirstIn(a);
    FirstIn(b);
    if a == [] || b == [] {
    } else {
      LessTotal();
      assert a[0] == b[0];
      forall k ensures k in a[1..] <==> k in b[1..] {
        assert k in a[1..] <==> k in a && k != a[0];
        assert k in b[1..] <==> k in b && k != b[0];
      }
      AscendingUnique(a[1..], b[1..]);
      assert a == [a[0]] + a[1..] && b == [b[0]] + b[1..];
    }
  }

  lemma FirstIn(a: seq<string>)
    ensures a == [] || a[0] in a
  {
  }

  /** What a loop needs of a walk over the keys in s: all of them, none twice. */
  ghost predicate Walks(ks: seq<string>, s: set<string>) {
    && (forall k :: k in ks <==> k in s)
    && (forall i :: 0 <= i < |ks| ==> ks[i] !in ks[..i])
  }

  lemma TextKeysWalk(s: set<string>)
    ensures Walks(TextKeys(s), s)
  {
    TextKeysAscending(s);
    forall x | x in TextKeys(s) ensures !Less(x, x) {
      LessIrreflexive(x);
    }
  }

  lemma LeastIdExists(s: set<int64>) returns (m: int64)
    requires s != {}
    ensures m in s && forall k :: k in s ==> m <= k
  {
    var x :| x in s;
    if s == {x} {
      return x;
    }
    var rest := s - {x};
    assert s == rest + {x};
    var r := LeastIdExists(rest);
    m := if x < r then x else r;
  }

  function LeastId(s: set<int64>): (m: int64)
    requires s != {}
    ensures m in s && forall k :: k in s ==> m <= k
  {
    assert exists m :: m in s && forall k :: k in s ==> m <= k by { var m := LeastIdExists(s); }
    var m :| m in s && forall k :: k in s ==> m <= k;
    m
  }

  /** The keys of an integer-keyed QMap, in its iteration order. */
  function IdKeys(s: set<int64>): (ks: seq<int64>)
    ensures forall k :: k in ks <==> k in s
    decreases |s|
  {
    if s == {} then [] else [LeastId(s)] + IdKeys(s - {LeastId(s)})
  }

  lemma {:induction false} IdKeysAscending(s: set<int64>)
    ensures forall i, j :: 0 <= i < j < |IdKeys(s)| ==> IdKeys(s)[i] < IdKeys(s)[j]
    decreases |s|
  {
    if s == {} {
    } else {
      var m := LeastId(s);
      IdKeysAscending(s - {m});
      var rest := IdKeys(s - {m});
      forall j | 0 <= j < |rest| ensures m < rest[j] {
        assert rest[j] in rest && rest[j] in s - {m};
      }
      assert IdKeys(s) == [m] + rest;
    }
  }

  // ----- trimming -----

  predicate IsSpace(c: char) { c == ' ' || ('\t' <= c <= '\r') }

  function TrimLeft(s: string): string {
    if s != [] && IsSpace(s[0]) then TrimLeft(s[1..]) else s
  }

  function TrimRight(s: string): string {
    if s != [] && IsSpace(s[|s| - 1]) then TrimRight(s[..|s| - 1]) else s
  }

  function Trim(s: string): string { TrimRight(TrimLeft(s)) }

  predicate Blank(s: string) { Trim(s) == [] }

  ghost predicate White(s: string) { forall i :: 0 <= i < |s| ==> s[i] == ' ' || '\t' <= s[i] <= '\r' }

  /** Trimming takes white space from both ends, and all of it. */
  lemma TrimExact(s: string) returns (before: string, after: string)
    ensures s == before + Trim(s) + after && White(before) && White(after)
    ensures Trim(s) != [] ==> !White([Trim(s)[0]]) && !White([Trim(s)[|Trim(s)| - 1]])
  {
    before := LeftPart(s);
    after := RightPart(TrimLeft(s));
    var l, t := TrimLeft(s), Trim(s);
    if t != [] {
      assert t[0] == l[0] && !IsSpace(t[0]) && !IsSpace(t[|t| - 1]);
      assert [t[0]][0] == t[0] && [t[|t| - 1]][0] == t[|t| - 1];
    }
  }

  lemma {:induction false} LeftPart(s: string) returns (before: string)
    ensures s == before + TrimLeft(s) && White(before)
    ensures TrimLeft(s) != [] ==> !IsSpace(TrimLeft(s)[0])
  {
    if s == [] || !IsSpace(s[0]) {
      return "";
    } else {
      var rest := LeftPart(s[1..]);
      before := [s[0]] + rest;
      assert s == [s[0]] + s[1..];
    }
  }

  lemma {:induction false} RightPart(s: string) returns (after: string)
    ensures s == TrimRight(s) + after && White(after)
    ensures TrimRight(s) != [] ==> !IsSpace(TrimRight(s)[|TrimRight(s)| - 1])
  {
    if s == [] || !IsSpace(s[|s| - 1]) {
      return "";
    } else {
      var rest := RightPart(s[..|s| - 1]);
      after := rest + [s[|s| - 1]];
      assert s == s[..|s| - 1] + [s[|s| - 1]];
    }
  }

  lemma {:induction false} TrimLeftPadded(before: string, core: string)
    requires White(before) && (core == [] || !IsSpace(core[0]))
    ensures TrimLeft(before + core) == core
  {
    if before == [] {
      assert before + core == core;
    } else {
      TrimLeftPadded(before[1..], core);
      assert (before + core)[1..] == before[1..] + core;
    }
  }

  lemma {:induction false} TrimRightPadded(core: string, after: string)
    requires White(after) && (core == [] || !IsSpace(core[|core| - 1]))
    ensures TrimRight(core + after) == core
  {
    if after == [] {
      assert core + after == core;
    } else {
      var n := |after| - 1;
      TrimRightPadded(core, after[..n]);
      assert (core + after)[..|core + after| - 1] == core + after[..n];
    }
  }

  lemma TrimPadded(before: string, core: string, after: string)
    requires White(before) && White(after) && core != [] && !IsSpace(core[0]) && !IsSpace(core[|core| - 1])
    ensures Trim(before + core + after) == core
  {
    assert before + core + after == before + (core + after);
    TrimLeftPadded(before, core + after);
    TrimRightPadded(core, after);
  }

  // ----- decimal numbers: QString::number and QString::toLongLong -----

  predicate IsDigit(c: char) { '0' <= c <= '9' }

  function DigitChar(d: nat): (c: char)
    requires d < 10
    ensures IsDigit(c) && c as int == '0' as int + d
  {
    (d + '0' as int) as char
  }

  function Digits(n: nat): (s: string)
    ensures s != [] && AllDigits(s)
  {
    if n < 10 then [DigitChar(n)] else Digits(n / 10) + [DigitChar(n % 10)]
  }

  function Decimal(n: int): string {
    if n < 0 then "-" + Digits(-n) else Digits(n)
  }

  predicate AllDigits(s: string) { forall i :: 0 <= i < |s| ==> IsDigit(s[i]) }

  function DigitValue(c: char): nat
    requires IsDigit(c)
  {
    c as int - '0' as int
  }

  function DigitsValue(s: string): nat
    requires AllDigits(s)
  {
    if s == [] then 0 else DigitsValue(s[..|s| - 1]) * 10 + DigitValue(s[|s| - 1])
  }

  /** QString::toLongLong in base ten: surrounding space is ignored, one sign is allowed,
      at least one digit is needed, and a value outside 64 bits is an error. */
  function ToLongLong(s: string): Option<int64> {
    var t := Trim(s);
    var negative := t != [] && t[0] == '-';
    var digits := if negative || (t != [] && t[0] == '+') then t[1..] else t;
    if digits == [] || !AllDigits(digits) then None
    else
      var v: int := DigitsValue(digits);
      var v: int := if negative then -v else v;
      if -INT64_LIMIT <= v < INT64_LIMIT then Some(v) else None
  }

  lemma {:induction false} DigitsRoundTrip(n: nat)
    ensures DigitsValue(Digits(n)) == n
  {
    var s := Digits(n);
    if n < 10 {
      assert s[..0] == [];
    } else {
      DigitsRoundTrip(n / 10);
      assert s[..|s| - 1] == Digits(n / 10);
    }
  }

  lemma TrimNoSpace(s: string)
    requires s != [] && !IsSpace(s[0]) && !IsSpace(s[|s| - 1])
    ensures Trim(s) == s
  {
  }

  lemma DecimalShape(n: int)
    ensures var s := Decimal(n);
            && s != [] && !IsSpace(s[0]) && !IsSpace(s[|s| - 1]) && s[0] != '+'
            && (s[0] == '-' <==> n < 0)
            && (n < 0 ==> s[1..] == Digits(-n))
  {
    var d := if n < 0 then Digits(-n) else Digits(n);
    assert IsDigit(d[0]) && IsDigit(d[|d| - 1]);
  }

  /** Reading back what QString::number wrote gives the number. */
  lemma DecimalRoundTrip(n: int64)
    ensures ToLongLong(Decimal(n)) == Some(n)
  {
    hide Digits, Decimal, Trim, IsSpace;
    var m: int := n;
    var s := Decimal(m);
    DecimalShape(m);
    TrimNoSpace(s);
    if m < 0 {
      DigitsRoundTrip(-m);
    } else {
      DigitsRoundTrip(m);
      DecimalOfNat(m);
    }
  }

  lemma {:induction false} ZerosAddNothing(zeros: string, n: nat)
    requires forall i :: 0 <= i < |zeros| ==> zeros[i] == '0'
    ensures AllDigits(zeros + Digits(n)) && DigitsValue(zeros + Digits(n)) == n
    decreases n
  {
    var s := zeros + Digits(n);
    if n < 10 {
      assert s[..|s| - 1] == zeros;
      ZerosAreZero(zeros);
    } else {
      ZerosAddNothing(zeros, n / 10);
      assert s[..|s| - 1] == zeros + Digits(n / 10);
    }
  }

  lemma {:induction false} ZerosAreZero(zeros: string)
    requires forall i :: 0 <= i < |zeros| ==> zeros[i] == '0'
    ensures AllDigits(zeros) && DigitsValue(zeros) == 0
  {
    if zeros == [] {
    } else {
      ZerosAreZero(zeros[..|zeros| - 1]);
    }
  }

  /** Read as a number is white space, at most one sign, leading zeros, the digits of a number, and white
      space, provided the number fits 64 bits. */
  lemma ToLongLongReads(before: string, sign: string, zeros: string, n: nat, after: string)
    requires White(before) && White(after) && (sign == "" || sign == "+" || sign == "-")
    requires forall i :: 0 <= i < |zeros| ==> zeros[i] == '0'
    ensures var v: int := if sign == "-" then -(n as int) else n;
            ToLongLong(before + (sign + zeros + Digits(n)) + after)
              == if -0x8000_0000_0000_0000 <= v < 0x8000_0000_0000_0000 then Some(v) else None
  {
    hide Digits, DigitsValue, Trim;
    var digits := zeros + Digits(n);
    var core := sign + zeros + Digits(n);
    ZerosAddNothing(zeros, n);
    assert core == sign + digits;
    assert IsDigit(digits[0]) && IsDigit(digits[|digits| - 1]);
    assert core[|core| - 1] == digits[|digits| - 1];
    TrimPadded(before, core, after);
    ToLongLongCore(before + (sign + zeros + Digits(n)) + after, sign, digits);
  }

  lemma ToLongLongCore(s: string, sign: string, digits: string)
    requires sign == "" || sign == "+" || sign == "-"
    requires digits != [] && AllDigits(digits) && Trim(s) == sign + digits
    ensures var v: int := if sign == "-" then -(DigitsValue(digits) as int) else DigitsValue(digits);
            ToLongLong(s) == if -INT64_LIMIT <= v < INT64_LIMIT then Some(v) else None
  {
    hide DigitsValue, Trim;
    var t := Trim(s);
    assert IsDigit(digits[0]);
    if sign == "" {
      assert t == digits;
    } else {
      assert t[0] == sign[0] && t[1..] == digits;
    }
  }

  /** Nothing else is: a text without a digit after white space and sign, or with anything but digits
      there before the white space at the end. */
  lemma ToLongLongRejects(s: string)
    ensures var t := Trim(s);
            var rest := if t != [] && (t[0] == '+' || t[0] == '-') then t[1..] else t;
            rest == [] || (exists i :: 0 <= i < |rest| && !('0' <= rest[i] <= '9')) ==> ToLongLong(s) == None
  {
    hide Trim;
  }

  lemma DecimalOfNat(n: nat)
    ensures Decimal(n) == Digits(n)
  {
  }

  lemma DigitsInjective(m: nat, n: nat)
    requires Digits(m) == Digits(n)
    ensures m == n
  {
    DigitsRoundTrip(m);
    DigitsRoundTrip(n);
  }

  lemma DecimalSign(n: int)
    ensures Decimal(n) != [] && (Decimal(n)[0] == '-' <==> n < 0)
  {
    if n >= 0 {
      assert IsDigit(Digits(n)[0]);
    }
  }

  lemma DecimalInjective(m: int, n: int)
    requires Decimal(m) == Decimal(n)
    ensures m == n
  {
    if m < 0 && n < 0 {
      assert Decimal(m)[1..] == Digits(-m) && Decimal(n)[1..] == Digits(-n);
      DigitsInjective(-m, -n);
    } else if m >= 0 && n >= 0 {
      DigitsInjective(m, n);
    } else {
      DecimalSign(m);
      DecimalSign(n);
    }
  }
}
