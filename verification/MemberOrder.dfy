/**
 * How the memory backend breaks a score tie between two members: a comparison of
 * UTF-16 units that must agree with Redis, which compares their UTF-8 bytes.
 */
module MemberOrder {

  /** A UTF-16 code unit; a text may hold lone surrogates. */
  type CodeUnit = u: int | 0 <= u < 0x10000

  type Text = seq<CodeUnit>

  predicate Surrogate(u: CodeUnit) { 0xD800 <= u <= 0xDFFF }

  predicate High(u: CodeUnit) { 0xD800 <= u <= 0xDBFF }

  predicate Low(u: CodeUnit) { 0xDC00 <= u <= 0xDFFF }

  /**
   * The first code point of a text and how many units it takes: a surrogate pair by
   * section 2.2 of RFC 2781, and U+FFFD for a surrogate that has no partner.
   */
  function Lead(s: Text): (r: (int, nat))
    requires s != []
    ensures 0 <= r.0 <= 0x10FFFF && 1 <= r.1 <= 2 && r.1 <= |s|
  {
    if High(s[0]) && |s| > 1 && Low(s[1]) then
      (0x10000 + (s[0] as int - 0xD800) * 0x400 + (s[1] as int - 0xDC00), 2)
    else if Surrogate(s[0]) then (0xFFFD, 1)
    else (s[0], 1)
  }

  /** Section 3 of RFC 3629. */
  function EncodePoint(c: int): (bytes: seq<int>)
    requires 0 <= c <= 0x10FFFF
    ensures bytes != []
  {
    if c < 0x80 then [c]
    else if c < 0x800 then [0xC0 + c / 0x40, 0x80 + c % 0x40]
    else if c < 0x10000 then [0xE0 + c / 0x1000, 0x80 + c / 0x40 % 0x40, 0x80 + c % 0x40]
    else [0xF0 + c / 0x40000, 0x80 + c / 0x1000 % 0x40, 0x80 + c / 0x40 % 0x40, 0x80 + c % 0x40]
  }

  function Utf8(s: Text): seq<int>
    decreases |s|
  {
    if s == [] then [] else EncodePoint(Lead(s).0) + Utf8(s[Lead(s).1..])
  }

  /** Where two sequences first differ, or where the shorter one ends. */
  function Mismatch(a: seq<int>, b: seq<int>): (i: nat)
    ensures i <= |a| && i <= |b| && a[..i] == b[..i]
    ensures i < |a| && i < |b| ==> a[i] != b[i]
    decreases |a|
  {
    if a == [] || b == [] || a[0] != b[0] then 0 else 1 + Mismatch(a[1..], b[1..])
  }

  /** Byte order: by the first byte that differs, else the shorter first. */
  function CompareBytes(x: seq<int>, y: seq<int>): int {
    var i := Mismatch(x, y);
    if i < |x| && i < |y| then x[i] - y[i] else |x| - |y|
  }

  /** Unit order, with a detour through the encodings when a surrogate is involved. */
  function CompareMembers(a: Text, b: Text): int {
    var i := Mismatch(a, b);
    if i < |a| && i < |b| then
      if Surrogate(a[i]) || Surrogate(b[i]) then CompareBytes(Utf8(a), Utf8(b)) else a[i] as int - b[i] as int
    else |a| - |b|
  }

  lemma {:induction false} MismatchIs(a: seq<int>, b: seq<int>, i: nat)
    requires i <= |a| && i <= |b| && a[..i] == b[..i]
    requires i < |a| && i < |b| ==> a[i] != b[i]
    ensures Mismatch(a, b) == i
    decreases i
  {
    if i > 0 {
      PrefixAt(a, b, i, 0);
      assert a[1..][..i - 1] == a[..i][1..] && b[1..][..i - 1] == b[..i][1..];
      MismatchIs(a[1..], b[1..], i - 1);
    }
  }

  lemma PrefixAt(a: seq<int>, b: seq<int>, n: nat, i: nat)
    requires i < n <= |a| && n <= |b| && a[..n] == b[..n]
    ensures a[i] == b[i]
  {
    assert a[..n][i] == b[..n][i];
  }

  method CompareBytesLoop(x: seq<int>, y: seq<int>) returns (r: int)
    ensures r == CompareBytes(x, y)
  {
    var length := if |x| <= |y| then |x| else |y|;
    var i := 0;
    while i < length
      invariant 0 <= i <= length
      invariant x[..i] == y[..i]
    {
      if x[i] != y[i] {
        MismatchIs(x, y, i);
        return x[i] - y[i];
      }
      i := i + 1;
    }
    MismatchIs(x, y, i);
    return |x| - |y|;
  }

  method CompareMembersLoop(a: Text, b: Text) returns (r: int)
    ensures r == CompareMembers(a, b)
  {
    var length := if |a| <= |b| then |a| else |b|;
    var i := 0;
    while i < length
      invariant 0 <= i <= length
      invariant a[..i] == b[..i]
    {
      var x: int, y: int := a[i], b[i];
      if x != y {
        MismatchIs(a, b, i);
        if Surrogate(x) || Surrogate(y) {
          r := CompareBytesLoop(Utf8(a), Utf8(b));
          return;
        }
        return x - y;
      }
      i := i + 1;
    }
    MismatchIs(a, b, i);
    return |a| - |b|;
  }

  function Sign(n: int): int { if n < 0 then -1 else if n > 0 then 1 else 0 }

  // --------------------------------------------------- what byte order satisfies

  lemma CommonPrefix(p: seq<int>, x: seq<int>, y: seq<int>)
    ensures CompareBytes(p + x, p + y) == CompareBytes(x, y)
  {
    var i := Mismatch(x, y);
    assert (p + x)[..|p| + i] == p + x[..i] && (p + y)[..|p| + i] == p + y[..i];
    MismatchIs(p + x, p + y, |p| + i);
  }

  lemma SameBytes(x: seq<int>, y: seq<int>)
    ensures CompareBytes(x, y) == 0 <==> x == y
  {
    if x == y {
      MismatchIs(x, y, |x|);
    }
    var i := Mismatch(x, y);
    if i == |x| && i == |y| {
      assert x == x[..i] && y == y[..i];
    }
  }

  lemma BytesAntisymmetric(x: seq<int>, y: seq<int>)
    ensures CompareBytes(x, y) == -CompareBytes(y, x)
  {
    MismatchIs(y, x, Mismatch(x, y));
  }

  lemma BytesTransitive(x: seq<int>, y: seq<int>, z: seq<int>)
    requires CompareBytes(x, y) <= 0 && CompareBytes(y, z) <= 0
    ensures CompareBytes(x, z) <= 0
  {
    var i, j := Mismatch(x, y), Mismatch(y, z);
    var k := if i <= j then i else j;
    assert x[..k] == x[..i][..k] && y[..k] == y[..i][..k] && y[..k] == y[..j][..k] && z[..k] == z[..j][..k];
    if i < j {
      PrefixAt(y, z, j, i);
    } else if j < i {
      PrefixAt(x, y, i, j);
    }
    MismatchIs(x, z, k);
  }

  /** The lead byte rises with the length of the encoding. */
  lemma LeadByte(c: int)
    requires 0 <= c <= 0x10FFFF
    ensures var p := EncodePoint(c);
      && (|p| == 1 <==> c < 0x80) && (|p| == 2 <==> 0x80 <= c < 0x800)
      && (|p| == 3 <==> 0x800 <= c < 0x10000) && (|p| == 4 <==> 0x10000 <= c)
      && (|p| == 1 ==> p[0] < 0x80) && (|p| == 2 ==> 0xC0 <= p[0] < 0xE0)
      && (|p| == 3 ==> 0xE0 <= p[0] < 0xF0) && (|p| == 4 ==> 0xF0 <= p[0])
  {
  }

  /** Two different encodings of one length differ at a byte that orders them. */
  lemma DigitsOrder(c: int, d: int) returns (i: nat)
    requires 0 <= c < d <= 0x10FFFF && |EncodePoint(c)| == |EncodePoint(d)|
    ensures var p, q := EncodePoint(c), EncodePoint(d);
      i < |p| && p[..i] == q[..i] && p[i] < q[i]
  {
    LeadByte(c);
    LeadByte(d);
    NextDigit(c, d);
    NextDigit(c / 0x40, d / 0x40);
    NextDigit(c / 0x1000, d / 0x1000);
    var p, q := EncodePoint(c), EncodePoint(d);
    i := if p[0] != q[0] then 0 else if p[1] != q[1] then 1 else if p[2] != q[2] then 2 else 3;
  }

  /** Order is decided by the higher digits, and by the last only when they agree. */
  lemma NextDigit(c: int, d: int)
    requires 0 <= c <= d
    ensures c / 0x40 <= d / 0x40
    ensures c / 0x40 == d / 0x40 ==> c % 0x40 <= d % 0x40 && (c < d ==> c % 0x40 < d % 0x40)
    ensures c / 0x40 / 0x40 == c / 0x1000 && d / 0x40 / 0x40 == d / 0x1000
    ensures c / 0x1000 / 0x40 == c / 0x40000 && d / 0x1000 / 0x40 == d / 0x40000
  {
  }

  /** Encodings order as their code points do, whatever follows them. */
  lemma EncodingOrders(c: int, d: int, x: seq<int>, y: seq<int>)
    requires 0 <= c < d <= 0x10FFFF
    ensures CompareBytes(EncodePoint(c) + x, EncodePoint(d) + y) < 0
  {
    var p, q := EncodePoint(c), EncodePoint(d);
    var i := 0;
    if |p| == |q| {
      i := DigitsOrder(c, d);
    } else {
      LeadByte(c);
      LeadByte(d);
    }
    assert (p + x)[..i] == p[..i] && (q + y)[..i] == q[..i];
    MismatchIs(p + x, q + y, i);
  }

  // -------------------------------------------- the two orders are one order

  lemma MismatchShift(a: seq<int>, b: seq<int>, w: nat)
    requires w <= |a| && w <= |b| && a[..w] == b[..w]
    ensures Mismatch(a, b) == w + Mismatch(a[w..], b[w..])
  {
    var i := Mismatch(a[w..], b[w..]);
    assert a[..w + i] == a[..w] + a[w..][..i] && b[..w + i] == b[..w] + b[w..][..i];
    MismatchIs(a, b, w + i);
  }

  lemma LeadsShared(a: Text, b: Text)
    requires a != [] && b != [] && Lead(a).1 == Lead(b).1 && a[..Lead(a).1] == b[..Lead(a).1]
    ensures Lead(a) == Lead(b)
  {
    PrefixAt(a, b, Lead(a).1, 0);
    if Lead(a).1 == 2 {
      PrefixAt(a, b, 2, 1);
    }
  }

  lemma SharedBytes(a: Text, b: Text, p: seq<int>, v: nat)
    requires v <= |a| && v <= |b| && Utf8(a) == p + Utf8(a[v..]) && Utf8(b) == p + Utf8(b[v..])
    ensures CompareBytes(Utf8(a), Utf8(b)) == CompareBytes(Utf8(a[v..]), Utf8(b[v..]))
  {
    CommonPrefix(p, Utf8(a[v..]), Utf8(b[v..]));
  }

  /** A first code point that two texts share decides nothing. */
  lemma SharedLead(a: Text, b: Text)
    requires a != [] && b != [] && Lead(a).1 == Lead(b).1 && a[..Lead(a).1] == b[..Lead(a).1]
    ensures var v := Lead(a).1;
      && Mismatch(a, b) == v + Mismatch(a[v..], b[v..])
      && CompareBytes(Utf8(a), Utf8(b)) == CompareBytes(Utf8(a[v..]), Utf8(b[v..]))
  {
    MismatchShift(a, b, Lead(a).1);
    LeadsShared(a, b);
    SharedBytes(a, b, EncodePoint(Lead(a).0), Lead(a).1);
  }

  /**
   * Where the same first unit begins different code points, one text pairs it with
   * a low surrogate and the other, ending there or going on otherwise, cannot.
   */
  lemma {:induction false} UnitsOrderBytes(a: Text, b: Text)
    requires var i := Mismatch(a, b); i < |a| && i < |b| ==> !Surrogate(a[i]) && !Surrogate(b[i])
    ensures Sign(CompareBytes(Utf8(a), Utf8(b))) == Sign(CompareMembers(a, b))
    decreases |a|
  {
    if a == [] || b == [] {
      assert Mismatch(Utf8(a), Utf8(b)) == 0;
    } else {
      var (c, v) := Lead(a);
      var (d, w) := Lead(b);
      if a[0] != b[0] {
        MismatchIs(a, b, 0);
        LeadsOrder(c, d, Utf8(a[v..]), Utf8(b[w..]));
      } else if v == w && a[..v] == b[..v] {
        SharedLead(a, b);
        UnitsOrderBytes(a[v..], b[v..]);
      } else {
        PairsSplit(a, b);
        LeadsOrder(c, d, Utf8(a[v..]), Utf8(b[w..]));
      }
    }
  }

  lemma LeadsOrder(c: int, d: int, x: seq<int>, y: seq<int>)
    requires 0 <= c <= 0x10FFFF && 0 <= d <= 0x10FFFF && c != d
    ensures Sign(CompareBytes(EncodePoint(c) + x, EncodePoint(d) + y)) == Sign(c - d)
  {
    if c < d {
      EncodingOrders(c, d, x, y);
    } else {
      EncodingOrders(d, c, y, x);
      BytesAntisymmetric(EncodePoint(c) + x, EncodePoint(d) + y);
    }
  }

  /** Two texts that agree on their first unit and both go on begin one code point. */
  lemma LeadsAgree(a: Text, b: Text)
    requires |a| > 1 && |b| > 1 && a[0] == b[0]
    requires var i := Mismatch(a, b); i < |a| && i < |b| ==> !Surrogate(a[i]) && !Surrogate(b[i])
    ensures Lead(a).1 == Lead(b).1 && a[..Lead(a).1] == b[..Lead(b).1]
  {
    assert a[..1] == b[..1];
    if a[1] == b[1] {
      assert a[..2] == b[..2];
    } else {
      MismatchIs(a, b, 1);
    }
  }

  /** One of two texts that agree on a high surrogate ends with it; it sorts first. */
  lemma PairsSplit(a: Text, b: Text)
    requires a != [] && b != [] && a[0] == b[0]
    requires var i := Mismatch(a, b); i < |a| && i < |b| ==> !Surrogate(a[i]) && !Surrogate(b[i])
    requires Lead(a).1 != Lead(b).1 || a[..Lead(a).1] != b[..Lead(b).1]
    ensures Lead(a).0 != Lead(b).0 && Sign(Lead(a).0 - Lead(b).0) == Sign(CompareMembers(a, b))
  {
    if |a| > 1 && |b| > 1 {
      LeadsAgree(a, b);
    } else {
      assert a[..1] == b[..1];
      MismatchIs(a, b, 1);
    }
  }

  /** The fast comparison has the sign of the byte comparison, for every two texts. */
  lemma AgreesWithBytes(a: Text, b: Text)
    ensures Sign(CompareMembers(a, b)) == Sign(CompareBytes(Utf8(a), Utf8(b)))
  {
    var i := Mismatch(a, b);
    if !(i < |a| && i < |b| && (Surrogate(a[i]) || Surrogate(b[i]))) {
      UnitsOrderBytes(a, b);
    }
  }

  predicate Before(a: Text, b: Text) { CompareMembers(a, b) <= 0 }

  /**
   * So members are totally preordered, and two tie exactly when their encodings are
   * the same: equal texts, but for lone surrogates, which all encode as U+FFFD.
   */
  lemma MembersAreOrdered(a: Text, b: Text, c: Text)
    ensures Before(a, b) || Before(b, a)
    ensures Before(a, b) && Before(b, c) ==> Before(a, c)
    ensures Before(a, b) && Before(b, a) <==> Utf8(a) == Utf8(b)
  {
    AgreesWithBytes(a, b);
    AgreesWithBytes(b, a);
    AgreesWithBytes(b, c);
    AgreesWithBytes(a, c);
    BytesAntisymmetric(Utf8(a), Utf8(b));
    SameBytes(Utf8(a), Utf8(b));
    if Before(a, b) && Before(b, c) {
      BytesTransitive(Utf8(a), Utf8(b), Utf8(c));
    }
  }
}
