/** Text primitives the models share: decimal printing, splitting on a separator,
    substring search and first-occurrence replacement, with the facts the
    string-encoded keys and paths of the system rest on. */
module Text {

  function Digit(d: nat): (c: char)
    requires d < 10
    ensures '0' <= c <= '9' && c as int - '0' as int == d
  {
    '0' + d as char
  }

  /** The decimal numeral of `n`, as `str(n)` prints it. */
  function Dec(n: nat): (s: string)
    ensures |s| > 0 && forall i :: 0 <= i < |s| ==> '0' <= s[i] <= '9'
  {
    if n < 10 then [Digit(n)] else Dec(n / 10) + [Digit(n % 10)]
  }

  /** `str(i)` for an integer. */
  function Print(i: int): (s: string) { if i < 0 then "-" + Dec(-i) else Dec(i) }

  lemma PrintInjective(i: int, j: int)
    ensures Print(i) == Print(j) ==> i == j
  {
    assert (Print(i)[0] == '-' <==> i < 0) && (Print(j)[0] == '-' <==> j < 0);
    if i < 0 && j < 0 {
      assert Print(i)[1..] == Dec(-i) && Print(j)[1..] == Dec(-j);
      DecInjective(-i, -j);
    } else if i >= 0 && j >= 0 {
      DecInjective(i, j);
    }
  }

  predicate IsNumeral(s: string) {
    s != "" && forall i :: 0 <= i < |s| ==> '0' <= s[i] <= '9'
  }

  /** The number a string of digits denotes, leading zeros allowed. */
  function Value(s: string): (n: nat)
    requires forall i :: 0 <= i < |s| ==> '0' <= s[i] <= '9'
  {
    if s == "" then 0 else 10 * Value(s[..|s| - 1]) + (s[|s| - 1] as int - '0' as int)
  }

  lemma {:induction false} ValueOfDec(n: nat)
    ensures Value(Dec(n)) == n
  {
    if n >= 10 {
      ValueOfDec(n / 10);
      assert Dec(n)[..|Dec(n)| - 1] == Dec(n / 10);
    }
  }

  lemma DecInjective(m: nat, n: nat)
    ensures Dec(m) == Dec(n) ==> m == n
  {
    ValueOfDec(m);
    ValueOfDec(n);
  }

  lemma DecAvoids(n: nat, c: char)
    requires !('0' <= c <= '9')
    ensures c !in Dec(n)
  {
  }

  /** `s.split(sep)` for a one-character separator. */
  function Split(s: string, sep: char): (parts: seq<string>)
    ensures |parts| >= 1
  {
    if s == "" then [""]
    else
      var rest := Split(s[1..], sep);
      if s[0] == sep then [""] + rest else [[s[0]] + rest[0]] + rest[1..]
  }

  lemma {:induction false} SplitAtSeparator(a: string, b: string, sep: char)
    ensures Split(a + [sep] + b, sep) == Split(a, sep) + Split(b, sep)
  {
    var whole := a + [sep] + b;
    if a == "" {
      assert whole[1..] == b;
    } else {
      assert whole[1..] == a[1..] + [sep] + b;
      SplitAtSeparator(a[1..], b, sep);
    }
  }

  lemma {:induction false} SplitWithoutSeparator(s: string, sep: char)
    requires sep !in s
    ensures Split(s, sep) == [s]
  {
    if s != "" {
      SplitWithoutSeparator(s[1..], sep);
      assert [s[0]] + s[1..] == s;
    }
  }

  predicate OccursAt(s: string, p: string, i: int) {
    0 <= i <= |s| - |p| && s[i..i + |p|] == p
  }

  /** `p in s` on strings: some window of `s` is `p`. */
  predicate Contains(s: string, p: string) {
    exists i :: 0 <= i <= |s| && OccursAt(s, p, i)
  }

  /** Cutting a string just before its `k`th field. */
  lemma {:induction false} CutBeforeField(s: string, sep: char, k: nat) returns (a: string, b: string)
    requires 1 <= k < |Split(s, sep)|
    ensures s == a + [sep] + b
    ensures |Split(a, sep)| == k && Split(b, sep) == Split(s, sep)[k..]
  {
    var rest := Split(s[1..], sep);
    if s[0] == sep && k == 1 {
      a, b := "", s[1..];
    } else if s[0] == sep {
      a, b := CutBeforeField(s[1..], sep, k - 1);
      a := [sep] + a;
      assert a[1..] + [sep] + b == s[1..];
    } else {
      a, b := CutBeforeField(s[1..], sep, k);
      a := [s[0]] + a;
      assert a[1..] + [sep] + b == s[1..];
    }
  }

  lemma ContainsAt(a: string, p: string, b: string)
    ensures Contains(a + p + b, p)
  {
    assert OccursAt(a + p + b, p, |a|);
  }

  /** Wrapping a string in separators adds one empty field at each end. */
  lemma WrappedFields(s: string, sep: char)
    ensures Split([sep] + s + [sep], sep) == [""] + Split(s, sep) + [""]
  {
    assert [sep] + s + [sep] == "" + [sep] + (s + [sep] + "");
    SplitAtSeparator("", s + [sep] + "", sep);
    SplitAtSeparator(s, "", sep);
  }

  lemma FieldsAround(a: string, t: string, b: string, sep: char)
    requires sep !in t
    ensures Split(a + ([sep] + t + [sep]) + b, sep) == Split(a, sep) + [t] + Split(b, sep)
  {
    assert a + ([sep] + t + [sep]) + b == a + [sep] + (t + [sep] + b);
    SplitAtSeparator(a, t + [sep] + b, sep);
    SplitAtSeparator(t, b, sep);
    SplitWithoutSeparator(t, sep);
  }

  lemma FoundIsField(s: string, t: string, sep: char, i: nat)
    requires sep !in t && OccursAt([sep] + s + [sep], [sep] + t + [sep], i)
    ensures t in Split(s, sep)
  {
    var w, p := [sep] + s + [sep], [sep] + t + [sep];
    var a, b := w[..i], w[i + |p|..];
    assert w == a + p + b;
    WrappedFields(s, sep);
    FieldsAround(a, t, b, sep);
    var k := |Split(a, sep)|;
    assert (Split(a, sep) + [t] + Split(b, sep))[k] == t;
    assert ([""] + Split(s, sep) + [""])[k] == Split(s, sep)[k - 1];
  }

  /** An inner field stands between two separators. */
  lemma InnerField(w: string, sep: char, j: nat) returns (a: string, tail: string)
    requires 1 <= j < |Split(w, sep)| - 1
    ensures w == a + ([sep] + Split(w, sep)[j] + [sep]) + tail
  {
    var b, head;
    a, b := CutBeforeField(w, sep, j);
    assert Split(b, sep)[0] == Split(w, sep)[j];
    head, tail := CutBeforeField(b, sep, 1);
    FirstField(head, tail, sep);
    assert a + [sep] + (head + [sep] + tail) == a + ([sep] + head + [sep]) + tail;
  }

  lemma FieldIsFound(s: string, sep: char, k: nat)
    requires k < |Split(s, sep)|
    ensures Contains([sep] + s + [sep], [sep] + Split(s, sep)[k] + [sep])
  {
    var w, t := [sep] + s + [sep], Split(s, sep)[k];
    assert |Split(w, sep)| == |Split(s, sep)| + 2 && Split(w, sep)[k + 1] == t by { WrappedFields(s, sep); }
    var a, tail := InnerField(w, sep, k + 1);
    ContainsAt(a, [sep] + t + [sep], tail);
  }

  /** The anchored search: between separators, `t` is found exactly when it is a whole field,
      never as part of a longer one. */
  lemma AnchoredSearchFindsFields(s: string, t: string, sep: char)
    requires sep !in t
    ensures Contains([sep] + s + [sep], [sep] + t + [sep]) <==> t in Split(s, sep)
  {
    var w, p := [sep] + s + [sep], [sep] + t + [sep];
    if Contains(w, p) {
      var i :| 0 <= i <= |w| && OccursAt(w, p, i);
      FoundIsField(s, t, sep, i);
    }
    if t in Split(s, sep) {
      var k :| 0 <= k < |Split(s, sep)| && Split(s, sep)[k] == t;
      FieldIsFound(s, sep, k);
    }
  }

  lemma FirstField(head: string, tail: string, sep: char)
    requires |Split(head, sep)| == 1
    ensures sep !in head && Split(head + [sep] + tail, sep)[0] == head
  {
    SingleField(head, sep);
    SplitAtSeparator(head, tail, sep);
    SplitWithoutSeparator(head, sep);
  }

  lemma {:induction false} SingleField(s: string, sep: char)
    requires |Split(s, sep)| == 1
    ensures sep !in s
  {
    if s != "" { SingleField(s[1..], sep); }
  }

  /** `s.replace(old, new, 1)`. */
  function ReplaceFirst(s: string, old_: string, new_: string): (r: string) {
    if |old_| <= |s| && s[..|old_|] == old_ then new_ + s[|old_|..]
    else if s == "" then s
    else [s[0]] + ReplaceFirst(s[1..], old_, new_)
  }

  /** The ASCII characters `str.strip` removes. */
  predicate IsSpace(c: char) { c == ' ' || '\t' <= c <= '\r' || '\U{001c}' <= c <= '\U{001f}' }

  function StripLeft(s: string): (r: string) {
    if s != "" && IsSpace(s[0]) then StripLeft(s[1..]) else s
  }

  function StripRight(s: string): (r: string) {
    if s != "" && IsSpace(s[|s| - 1]) then StripRight(s[..|s| - 1]) else s
  }

  function Strip(s: string): (r: string) { StripRight(StripLeft(s)) }
}
