/**
 C strings as values: a `string` stands for the characters before the terminating NUL.
 */
module Text {
  import opened Common

  const CRLF: string := "\r\n"

  /** `memchr`/`strchr`: index of the first `c`, or |s|. */
  function IndexOf(s: string, c: char): (i: nat)
    ensures i <= |s|
    ensures i < |s| ==> s[i] == c
    ensures c !in s[..i]
  {
    if s == "" || s[0] == c then 0
    else
      var i := 1 + IndexOf(s[1..], c);
      assert s[..i] == [s[0]] + s[1..][..i - 1];
      i
  }

  lemma IndexOfUnique(s: string, c: char, i: nat)
    requires i <= |s| && c !in s[..i] && (i < |s| ==> s[i] == c)
    ensures IndexOf(s, c) == i
  {
  }

  /** What a reader of a NUL-terminated buffer sees of `bytes`. */
  function CString(bytes: string): (s: string)
    ensures s <= bytes && '\0' !in s && (|s| < |bytes| ==> bytes[|s|] == '\0')
  {
    bytes[..IndexOf(bytes, '\0')]
  }

  predicate OccursAt(s: string, pattern: string, i: nat) {
    i + |pattern| <= |s| && s[i..i + |pattern|] == pattern
  }

  /** `strstr` from index `i` on: the first occurrence. */
  function FindFrom(s: string, pattern: string, i: nat): (r: Option<nat>)
    ensures r.Some? ==> i <= r.value && OccursAt(s, pattern, r.value)
    ensures forall j :: i <= j && (r.Some? ==> j < r.value) ==> !OccursAt(s, pattern, j)
    decreases |s| - i
  {
    if i > |s| then None
    else if OccursAt(s, pattern, i) then Some(i)
    else FindFrom(s, pattern, i + 1)
  }

  function Find(s: string, pattern: string): (r: Option<nat>)
    ensures r.Some? ==> OccursAt(s, pattern, r.value)
    ensures forall j: nat :: (r.Some? ==> j < r.value) ==> !OccursAt(s, pattern, j)
  {
    FindFrom(s, pattern, 0)
  }

  lemma FindUnique(s: string, pattern: string, i: nat)
    requires OccursAt(s, pattern, i) && forall j: nat :: j < i ==> !OccursAt(s, pattern, j)
    ensures Find(s, pattern) == Some(i)
  {
  }

  /** Whether `pattern` occurs at `i` depends only on the characters it covers. */
  lemma OccursInPrefix(s: string, t: string, pattern: string, i: nat)
    requires s <= t
    ensures OccursAt(s, pattern, i) <==> OccursAt(t, pattern, i) && i + |pattern| <= |s|
  {
  }

  lemma OccursInSuffix(s: string, pattern: string, from: nat, i: nat)
    requires from <= |s|
    ensures OccursAt(s[from..], pattern, i) <==> OccursAt(s, pattern, from + i)
  {
  }

  /** A blank line in either line-ending style: CR LF CR LF or LF LF, from index `i` on. */
  predicate BlankLineAt(s: string, i: nat) {
    || (i + 4 <= |s| && s[i] == '\r' && s[i + 1] == '\n' && s[i + 2] == '\r' && s[i + 3] == '\n')
    || (i + 2 <= |s| && s[i] == '\n' && s[i + 1] == '\n')
  }

  ghost predicate HasBlankLine(s: string) {
    exists i: nat :: BlankLineAt(s, i)
  }

  lemma OccursMeans(s: string, i: nat)
    ensures BlankLineAt(s, i) <==> OccursAt(s, "\r\n\r\n", i) || OccursAt(s, "\n\n", i)
  {
    var four, two := "\r\n\r\n", "\n\n";
    if i + 4 <= |s| {
      assert s[i..i + 4] == [s[i], s[i + 1], s[i + 2], s[i + 3]];
      assert four == [four[0], four[1], four[2], four[3]];
    }
    if i + 2 <= |s| {
      assert s[i..i + 2] == [s[i], s[i + 1]];
      assert two == [two[0], two[1]];
    }
  }

  /** What both the intake loop and the parser look for. */
  predicate HasTerminator(s: string): (found: bool)
    ensures found <==> HasBlankLine(s)
  {
    var found := Find(s, "\r\n\r\n").Some? || Find(s, "\n\n").Some?;
    assert found <==> HasBlankLine(s) by {
      if found {
        var i := if Find(s, "\r\n\r\n").Some? then Find(s, "\r\n\r\n").value else Find(s, "\n\n").value;
        OccursMeans(s, i);
      }
      if i: nat :| BlankLineAt(s, i) {
        OccursMeans(s, i);
      }
    }
    found
  }

  // ----- decimal numerals

  predicate IsDigit(c: char) {
    '0' <= c <= '9'
  }

  predicate AllDigits(s: string) {
    forall i :: 0 <= i < |s| ==> IsDigit(s[i])
  }

  function Value(digits: string): nat
    requires AllDigits(digits)
  {
    if digits == "" then 0
    else Value(digits[..|digits| - 1]) * 10 + (digits[|digits| - 1] as int - '0' as int)
  }

  /** `%d` of a non-negative number. */
  function Decimal(n: nat): (s: string)
    ensures s != "" && AllDigits(s) && Value(s) == n && (s[0] == '0' ==> n == 0)
  {
    var digit := ['0' + (n % 10) as char];
    if n < 10 then
      assert digit[..0] == "";
      digit
    else
      var front := Decimal(n / 10);
      assert (front + digit)[..|front|] == front;
      front + digit
  }

  lemma FourDigits()
    ensures Decimal(8080) == "8080"
  {
    assert Decimal(80) == "80" && Decimal(808) == "808";
  }

  lemma DecimalInjective(m: nat, n: nat)
    requires Decimal(m) == Decimal(n)
    ensures m == n
  {
  }

  /** A port number prints with at most five digits. */
  lemma DecimalLength(n: nat)
    requires n <= 65535
    ensures |Decimal(n)| <= 5
  {
    if n >= 10 {
      assert |Decimal(n)| == |Decimal(n / 10)| + 1;
      if n >= 100 {
        assert |Decimal(n / 10)| == |Decimal(n / 10 / 10)| + 1;
        if n >= 1000 {
          assert |Decimal(n / 10 / 10)| == |Decimal(n / 10 / 10 / 10)| + 1;
          if n >= 10000 {
            assert |Decimal(n / 10 / 10 / 10)| == |Decimal(n / 10 / 10 / 10 / 10)| + 1;
          }
        }
      }
    }
  }
}
