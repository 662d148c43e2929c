/** Strings the services build and take apart: decimal numbers, zero padding and
    the request ids the Access API makes out of them. */
module Text {

  datatype Option<+T> = None | Some(value: T)

  predicate IsDigit(c: char) { '0' <= c <= '9' }

  function Digit(d: nat): (c: char)
    requires d < 10
    ensures IsDigit(c) && c as int - '0' as int == d
  {
    ('0' as int + d) as char
  }

  /** The `%d` rendering of a natural number. */
  function Decimal(n: nat): (s: string)
    ensures s != [] && forall i :: 0 <= i < |s| ==> IsDigit(s[i])
  {
    if n < 10 then [Digit(n)] else Decimal(n / 10) + [Digit(n % 10)]
  }

  /** Reads a digit string back; the left inverse of `Decimal`. */
  function Value(s: string): nat
    requires forall i :: 0 <= i < |s| ==> IsDigit(s[i])
  {
    if s == [] then 0
    else
      assert IsDigit(s[|s| - 1]);
      10 * Value(s[..|s| - 1]) + (s[|s| - 1] as int - '0' as int)
  }

  lemma {:induction false} ValueOfDecimal(n: nat)
    ensures Value(Decimal(n)) == n
  {
    if n >= 10 {
      var s := Decimal(n);
      assert s[..|s| - 1] == Decimal(n / 10);
      ValueOfDecimal(n / 10);
    }
  }

  function Zeros(k: nat): (s: string)
    ensures |s| == k && forall i :: 0 <= i < k ==> s[i] == '0'
  {
    if k == 0 then "" else Zeros(k - 1) + "0"
  }

  /** The `%06d` style rendering: at least `width` characters, zeros in front. */
  function Padded(n: nat, width: nat): (s: string)
    ensures |s| >= width && (|Decimal(n)| >= width ==> s == Decimal(n))
    ensures forall i :: 0 <= i < |s| ==> IsDigit(s[i])
  {
    var d := Decimal(n);
    if |d| >= width then d else Zeros(width - |d|) + d
  }

  lemma {:induction false} ValueSkipsZeros(k: nat, s: string)
    requires forall i :: 0 <= i < |s| ==> IsDigit(s[i])
    ensures Value(Zeros(k) + s) == Value(s)
    decreases |s|, k
  {
    var z := Zeros(k) + s;
    if s == [] {
      if k > 0 {
        ValueSkipsZeros(k - 1, []);
        assert z[..|z| - 1] == Zeros(k - 1) + [];
      } else {
        assert z == [];
      }
    } else {
      ValueSkipsZeros(k, s[..|s| - 1]);
      assert z[..|z| - 1] == Zeros(k) + s[..|s| - 1];
    }
  }

  lemma PaddedInjective(m: nat, n: nat, width: nat)
    requires Padded(m, width) == Padded(n, width)
    ensures m == n
  {
    hide Padded, Value;
    ValueOfPadded(m, width);
    ValueOfPadded(n, width);
  }

  lemma ValueOfPadded(n: nat, width: nat)
    ensures Value(Padded(n, width)) == n
  {
    hide Value, Decimal;
    ValueOfDecimal(n);
    if |Decimal(n)| < width { ValueSkipsZeros(width - |Decimal(n)|, Decimal(n)); }
  }

  /** `newRequestID`: the employee, a dash, the clock in nanoseconds. */
  function NewRequestId(employeeId: string, nanos: nat): string {
    employeeId + "-" + Decimal(nanos)
  }

  /** What stands before the last dash of a request id. */
  function EmployeeOf(requestId: string): string {
    if requestId == [] then ""
    else
      var front := requestId[..|requestId| - 1];
      if requestId[|requestId| - 1] == '-' then front else EmployeeOf(front)
  }

  lemma {:induction false} EmployeeOfDigits(employeeId: string, digits: string)
    requires forall i :: 0 <= i < |digits| ==> IsDigit(digits[i])
    ensures EmployeeOf(employeeId + "-" + digits) == employeeId
  {
    var id := employeeId + "-" + digits;
    if digits == [] {
      assert id[..|id| - 1] == employeeId;
    } else {
      var front := digits[..|digits| - 1];
      assert id[..|id| - 1] == employeeId + "-" + front;
      EmployeeOfDigits(employeeId, front);
    }
  }

  /** A request id names its employee, whatever dashes the employee id contains. */
  lemma RequestIdNamesEmployee(employeeId: string, nanos: nat)
    ensures EmployeeOf(NewRequestId(employeeId, nanos)) == employeeId
  {
    EmployeeOfDigits(employeeId, Decimal(nanos));
  }

  /** Two swipes get the same request id exactly when they are by the same
      employee in the same nanosecond. */
  lemma RequestIdCollision(e1: string, n1: nat, e2: string, n2: nat)
    ensures NewRequestId(e1, n1) == NewRequestId(e2, n2) <==> e1 == e2 && n1 == n2
  {
    if NewRequestId(e1, n1) == NewRequestId(e2, n2) {
      RequestIdNamesEmployee(e1, n1);
      RequestIdNamesEmployee(e2, n2);
      assert NewRequestId(e1, n1)[|e1| + 1..] == Decimal(n1);
      assert NewRequestId(e2, n2)[|e2| + 1..] == Decimal(n2);
      ValueOfDecimal(n1);
      ValueOfDecimal(n2);
    }
  }

  /** Unicode White_Space, which Go's `strings.TrimSpace` removes. */
  predicate IsSpace(c: char) {
    || '\U{9}' <= c <= '\U{D}' || c == ' ' || c == '\U{85}' || c == '\U{A0}' || c == '\U{1680}'
    || '\U{2000}' <= c <= '\U{200A}' || c in {'\U{2028}', '\U{2029}', '\U{202F}', '\U{205F}', '\U{3000}'}
  }

  /** What Python's `str.strip` removes: the same and four separators of ASCII. */
  predicate IsPythonSpace(c: char) { IsSpace(c) || '\U{1C}' <= c <= '\U{1F}' }

  function TrimLeft(s: string, space: char -> bool): string {
    if s != [] && space(s[0]) then TrimLeft(s[1..], space) else s
  }

  function TrimRight(s: string, space: char -> bool): string {
    if s != [] && space(s[|s| - 1]) then TrimRight(s[..|s| - 1], space) else s
  }

  /** `strings.TrimSpace`. */
  function TrimSpace(s: string): string { TrimRight(TrimLeft(s, IsSpace), IsSpace) }

  /** `str.strip`. */
  function Strip(s: string): string { TrimRight(TrimLeft(s, IsPythonSpace), IsPythonSpace) }

  /** A text that neither begins nor ends with space is left as it is. */
  lemma TrimKeeps(s: string)
    requires s != [] && !IsSpace(s[0]) && !IsSpace(s[|s| - 1])
    ensures TrimSpace(s) == s
  {
  }

  ghost predicate AllSpace(s: string, space: char -> bool) { forall i :: 0 <= i < |s| ==> space(s[i]) }

  /** t is the part of s between the space at its ends. */
  ghost predicate IsInner(s: string, t: string, space: char -> bool) {
    && (exists a, b :: s == a + t + b && AllSpace(a, space) && AllSpace(b, space))
    && (t != [] ==> !space(t[0]) && !space(t[|t| - 1]))
  }

  lemma {:induction false} TrimLeftIs(s: string, space: char -> bool) returns (a: string)
    ensures s == a + TrimLeft(s, space) && AllSpace(a, space)
    ensures TrimLeft(s, space) != [] ==> !space(TrimLeft(s, space)[0])
  {
    if s != [] && space(s[0]) {
      var rest := TrimLeftIs(s[1..], space);
      a := [s[0]] + rest;
      assert s == [s[0]] + s[1..] == a + TrimLeft(s[1..], space);
      assert TrimLeft(s, space) == TrimLeft(s[1..], space);
    } else {
      a := [];
    }
  }

  lemma {:induction false} TrimRightIs(s: string, space: char -> bool) returns (b: string)
    ensures s == TrimRight(s, space) + b && AllSpace(b, space)
    ensures TrimRight(s, space) != [] ==> !space(TrimRight(s, space)[|TrimRight(s, space)| - 1])
  {
    if s != [] && space(s[|s| - 1]) {
      var rest := TrimRightIs(s[..|s| - 1], space);
      b := rest + [s[|s| - 1]];
      assert s == s[..|s| - 1] + [s[|s| - 1]];
    } else {
      b := [];
    }
  }

  lemma {:induction false} TrimLeftAll(a: string, t: string, space: char -> bool)
    requires AllSpace(a, space) && (t != [] ==> !space(t[0]))
    ensures TrimLeft(a + t, space) == t
  {
    if a != [] {
      assert (a + t)[0] == a[0] && (a + t)[1..] == a[1..] + t;
      TrimLeftAll(a[1..], t, space);
    } else {
      assert a + t == t;
    }
  }

  lemma {:induction false} TrimRightAll(t: string, b: string, space: char -> bool)
    requires AllSpace(b, space) && (t != [] ==> !space(t[|t| - 1]))
    ensures TrimRight(t + b, space) == t
  {
    if b != [] {
      var n := |b| - 1;
      assert (t + b)[|t + b| - 1] == b[n] && (t + b)[..|t + b| - 1] == t + b[..n];
      TrimRightAll(t, b[..n], space);
    } else {
      assert t + b == t;
    }
  }

  lemma TrimmedIsInner(s: string, space: char -> bool)
    ensures IsInner(s, TrimRight(TrimLeft(s, space), space), space)
  {
    hide TrimLeft, TrimRight, AllSpace;
    var left := TrimLeft(s, space);
    var inner := TrimRight(left, space);
    var a := TrimLeftIs(s, space);
    var b := TrimRightIs(left, space);
    assert s == a + inner + b;
    assert inner != [] ==> inner[0] == left[0];
  }

  lemma InnerIsTrimmed(s: string, t: string, space: char -> bool)
    requires IsInner(s, t, space)
    ensures TrimRight(TrimLeft(s, space), space) == t
  {
    var a, b :| s == a + t + b && AllSpace(a, space) && AllSpace(b, space);
    if t == [] {
      assert s == (a + b) + [] && AllSpace(a + b, space);
      TrimLeftAll(a + b, [], space);
    } else {
      hide TrimLeft, TrimRight, AllSpace;
      assert s == a + (t + b);
      TrimLeftAll(a, t + b, space);
      TrimRightAll(t, b, space);
    }
  }

  /** Trimming and stripping yield the one inner part, for every text. */
  lemma StripExactly(s: string, t: string)
    ensures TrimSpace(s) == t <==> IsInner(s, t, IsSpace)
    ensures Strip(s) == t <==> IsInner(s, t, IsPythonSpace)
  {
    TrimmedIsInner(s, IsSpace);
    TrimmedIsInner(s, IsPythonSpace);
    hide IsInner, TrimLeft, TrimRight;
    if IsInner(s, t, IsSpace) { InnerIsTrimmed(s, t, IsSpace); }
    if IsInner(s, t, IsPythonSpace) { InnerIsTrimmed(s, t, IsPythonSpace); }
  }

  /** Upper case as far as it can yield ASCII letters of a direction: the dotless i is
      the one character outside ASCII whose upper case is I. */
  function UpperChar(c: char): char {
    if 'a' <= c <= 'z' then (c as int - 'a' as int + 'A' as int) as char
    else if c == '\U{131}' then 'I'
    else c
  }

  function ToUpper(s: string): string {
    seq(|s|, i requires 0 <= i < |s| => UpperChar(s[i]))
  }

  /** The texts whose upper case is a direction. */
  lemma UpperExactly(s: string)
    ensures ToUpper(s) == "IN" <==> |s| == 2 && s[0] in {'i', 'I', '\U{131}'} && s[1] in {'n', 'N'}
    ensures ToUpper(s) == "OUT" <==> |s| == 3 && s[0] in {'o', 'O'} && s[1] in {'u', 'U'} && s[2] in {'t', 'T'}
  {
    var t := ToUpper(s);
    if |s| == 2 { assert t == [t[0], t[1]]; }
    if |s| == 3 { assert t == [t[0], t[1], t[2]]; }
    assert "IN" == ['I', 'N'] && "OUT" == ['O', 'U', 'T'];
  }
}
