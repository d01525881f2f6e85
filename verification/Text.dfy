/** The two pieces of string handling the transports and resolvers rely on:
    stripping white space and cutting a text at a separator. */
module Text {

  /** The characters Python's `str.strip` removes. */
  predicate IsSpace(c: char) {
    || '\t' <= c <= '\r'
    || '\U{1C}' <= c <= ' '
    || c == '\U{85}' || c == '\U{A0}' || c == '\U{1680}'
    || '\U{2000}' <= c <= '\U{200A}'
    || c == '\U{2028}' || c == '\U{2029}' || c == '\U{202F}'
    || c == '\U{205F}' || c == '\U{3000}'
  }

  function StripLeft(s: string): string {
    if s != "" && IsSpace(s[0]) then StripLeft(s[1..]) else s
  }

  function StripRight(s: string): string {
    if s != "" && IsSpace(s[|s| - 1]) then StripRight(s[..|s| - 1]) else s
  }

  function Strip(s: string): string {
    StripRight(StripLeft(s))
  }

  /** What is left is the part between the first and the last character that is not white space. */
  lemma Stripped(s: string)
    ensures exists i, j :: (
      && 0 <= i <= j <= |s| && Strip(s) == s[i..j]
      && (forall k :: 0 <= k < i || j <= k < |s| ==> IsSpace(s[k]))
      && (i < j ==> !IsSpace(s[i]) && !IsSpace(s[j - 1])))
  {
    var i := StripLeftAt(s);
    var rest := s[i..];
    var j := StripRightAt(rest);
    assert rest[..j] == s[i..i + j];
    assert forall k :: i + j <= k < |s| ==> s[k] == rest[k - i];
    assert j > 0 ==> s[i] == rest[0] && s[i + j - 1] == rest[j - 1];
  }

  lemma {:induction false} StripLeftAt(s: string) returns (i: nat)
    ensures i <= |s| && StripLeft(s) == s[i..]
    ensures (forall k :: 0 <= k < i ==> IsSpace(s[k])) && (i < |s| ==> !IsSpace(s[i]))
  {
    i := 0;
    if s != "" && IsSpace(s[0]) {
      var rest := StripLeftAt(s[1..]);
      i := rest + 1;
      assert forall k :: 1 <= k <= |s| - 1 ==> s[k] == s[1..][k - 1];
    }
  }

  lemma {:induction false} StripRightAt(s: string) returns (j: nat)
    ensures j <= |s| && StripRight(s) == s[..j]
    ensures (forall k :: j <= k < |s| ==> IsSpace(s[k])) && (j > 0 ==> !IsSpace(s[j - 1]))
  {
    j := |s|;
    if s != "" && IsSpace(s[|s| - 1]) {
      j := StripRightAt(s[..|s| - 1]);
    }
  }

  /** `s.split(sep)`: one more part than there are separators. */
  function Split<T(==)>(s: seq<T>, sep: T): (parts: seq<seq<T>>)
    ensures |parts| > 0
  {
    if s == [] then [[]]
    else
      var rest := Split(s[1..], sep);
      if s[0] == sep then [[]] + rest else [[s[0]] + rest[0]] + rest[1..]
  }

  function Join<T>(parts: seq<seq<T>>, sep: T): seq<T>
    requires |parts| > 0
  {
    if |parts| == 1 then parts[0] else parts[0] + [sep] + Join(parts[1..], sep)
  }

  function Last<T>(s: seq<T>): T
    requires |s| > 0
  {
    s[|s| - 1]
  }

  function Init<T>(s: seq<T>): seq<T>
    requires |s| > 0
  {
    s[..|s| - 1]
  }

  /** Splitting loses nothing and leaves no separator inside a part. */
  lemma {:induction false} SplitJoins<T>(s: seq<T>, sep: T)
    ensures Join(Split(s, sep), sep) == s
    ensures forall part :: part in Split(s, sep) ==> sep !in part
  {
    if s != [] {
      SplitJoins(s[1..], sep);
      var rest := Split(s[1..], sep);
      if s[0] == sep {
        assert ([[]] + rest)[1..] == rest;
      } else {
        var parts := [[s[0]] + rest[0]] + rest[1..];
        assert parts[1..] == rest[1..];
        assert s == [s[0]] + s[1..];
      }
    }
  }

  /** The parts of a text that arrives in two pieces: only the part at the cut is shared. */
  function Seam<T>(a: seq<seq<T>>, b: seq<seq<T>>): seq<seq<T>>
    requires |a| > 0 && |b| > 0
  {
    Init(a) + [Last(a) + b[0]] + b[1..]
  }

  lemma SeamAfterAll<T>(first: seq<seq<T>>, a: seq<seq<T>>, b: seq<seq<T>>)
    requires |a| > 0 && |b| > 0
    ensures Seam(first + a, b) == first + Seam(a, b)
  {
  }

  lemma SeamGrown<T>(c: T, a: seq<seq<T>>, b: seq<seq<T>>)
    requires |a| > 0 && |b| > 0
    ensures Seam([[c] + a[0]] + a[1..], b) == [[c] + Seam(a, b)[0]] + Seam(a, b)[1..]
  {
    if |a| == 1 {
      assert [c] + a[0] + b[0] == [c] + (a[0] + b[0]);
    } else {
      assert Init([[c] + a[0]] + a[1..]) == [[c] + a[0]] + Init(a)[1..];
    }
  }

  lemma {:induction false} SplitAppend<T>(a: seq<T>, b: seq<T>, sep: T)
    ensures Split(a + b, sep) == Seam(Split(a, sep), Split(b, sep))
  {
    if a == [] {
      assert a + b == b;
      var parts := Split(b, sep);
      assert Last<seq<T>>([[]]) + parts[0] == parts[0];
    } else {
      SplitAppend(a[1..], b, sep);
      assert (a + b)[1..] == a[1..] + b;
      if a[0] == sep {
        SeamAfterAll([[]], Split(a[1..], sep), Split(b, sep));
      } else {
        SeamGrown(a[0], Split(a[1..], sep), Split(b, sep));
      }
    }
  }

  /** A text without the separator is its own only part. */
  lemma {:induction false} SplitUncut<T>(s: seq<T>, sep: T)
    ensures |Split(s, sep)| == 1 <==> sep !in s
    ensures sep !in s ==> Split(s, sep) == [s]
  {
    if s != [] {
      SplitUncut(s[1..], sep);
      assert s == [s[0]] + s[1..];
    }
  }

  function Flatten<T>(parts: seq<seq<T>>): seq<T> {
    if parts == [] then [] else parts[0] + Flatten(parts[1..])
  }

  lemma {:induction false} FlattenAppend<T>(a: seq<seq<T>>, b: seq<seq<T>>)
    ensures Flatten(a + b) == Flatten(a) + Flatten(b)
  {
    hide Flatten;
    if a == [] {
      assert a + b == b;
      FlattenNone<T>();
    } else {
      FlattenAppend(a[1..], b);
      FlattenOne(a);
      FlattenOne(a + b);
      assert (a + b)[1..] == a[1..] + b;
      assert a[0] + (Flatten(a[1..]) + Flatten(b)) == a[0] + Flatten(a[1..]) + Flatten(b);
    }
  }

  lemma FlattenSingle<T>(part: seq<T>)
    ensures Flatten([part]) == part
  {
    assert [part][1..] == [];
    assert part + [] == part;
  }

  lemma FlattenNone<T>()
    ensures Flatten<T>([]) == []
  {
  }

  lemma FlattenOne<T>(parts: seq<seq<T>>)
    requires parts != []
    ensures Flatten(parts) == parts[0] + Flatten(parts[1..])
  {
  }

  /** Lower case, on the letters the fixed words of the program are made of. */
  function Lower(c: char): char {
    if 'A' <= c <= 'Z' then c - 'A' + 'a' else c
  }

  function LowerCase(s: string): string {
    seq(|s|, i requires 0 <= i < |s| => Lower(s[i]))
  }

  // ----- Decimal numerals -----

  function Decimal(n: nat): string {
    if n < 10 then [Digit(n)] else Decimal(n / 10) + [Digit(n % 10)]
  }

  function Digit(n: nat): char
    requires n < 10
  {
    '0' + n as char
  }

  function Value(digits: string): int {
    if digits == "" then 0 else Value(Init(digits)) * 10 + (Last(digits) as int - '0' as int)
  }

  /** A numeral has nothing but digits, and they give back the number. */
  lemma {:induction false} DecimalReads(n: nat)
    ensures Decimal(n) != "" && Value(Decimal(n)) == n
    ensures forall c :: c in Decimal(n) ==> '0' <= c <= '9'
  {
    if n >= 10 {
      DecimalReads(n / 10);
      assert Init(Decimal(n)) == Decimal(n / 10) && Last(Decimal(n)) == Digit(n % 10);
    } else {
      assert Init(Decimal(n)) == "" && Last(Decimal(n)) == Digit(n);
    }
  }

  /** Numerals of different numbers differ. */
  lemma DecimalInjective(m: nat, n: nat)
    requires Decimal(m) == Decimal(n)
    ensures m == n
  {
    DecimalReads(m);
    DecimalReads(n);
  }

  /** A text without white space is left as it is. */
  lemma StripTight(s: string)
    requires forall c :: c in s ==> !IsSpace(c)
    ensures Strip(s) == s
  {
    Stripped(s);
    var i, j :| 0 <= i <= j <= |s| && Strip(s) == s[i..j] && forall k :: 0 <= k < i || j <= k < |s| ==> IsSpace(s[k]);
    assert forall k :: 0 <= k < |s| ==> s[k] in s && !IsSpace(s[k]);
    assert s[i..j] == s;
  }
}
