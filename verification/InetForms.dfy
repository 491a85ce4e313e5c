/** What the grammar of src/inet_pton.c makes of well-formed addresses: the three text forms of
    section 2.2 of RFC 1884, and the printed form of an IPv4 address. */
module InetForms {
  import opened Common
  import opened Inet

  lemma {:induction false} FieldsConcat(a: string, b: string, sep: char)
    ensures Fields(a + [sep] + b, sep) == Fields(a, sep) + Fields(b, sep)
  {
    if b == "" {
      assert a + [sep] + b == a + [sep];
      FieldsSnoc(a, sep, sep);
    } else {
      var n := |b| - 1;
      FieldsConcat(a, b[..n], sep);
      assert a + [sep] + b == (a + [sep] + b[..n]) + [b[n]];
      assert b == b[..n] + [b[n]];
      FieldsSnoc(a + [sep] + b[..n], b[n], sep);
      FieldsSnoc(b[..n], b[n], sep);
      ConcatLast(Fields(a, sep), Fields(b[..n], sep), b[n]);
    }
  }

  lemma ConcatLast(f: seq<string>, g: seq<string>, c: char)
    requires g != []
    ensures (f + g) + [""] == f + (g + [""])
    ensures Closed(f + g) + [Last(f + g) + [c]] == f + (Closed(g) + [Last(g) + [c]])
  {
  }

  // ----- IPv4 round trip

  function Dec(n: nat): string {
    if n < 10 then [('0' as int + n) as char] else Dec(n / 10) + [('0' as int + n % 10) as char]
  }

  lemma {:induction false} DecIsDecimal(n: nat)
    ensures Dec(n) != "" && AllDec(Dec(n)) && Val(10, Dec(n)) == n
  {
    if n < 10 {
      assert Dec(n) == "" + Dec(n);
      ValSnoc(10, "", Dec(n)[0]);
    } else {
      DecIsDecimal(n / 10);
      ValSnoc(10, Dec(n / 10), ('0' as int + n % 10) as char);
    }
  }

  /** The canonical dotted form. */
  function Print4(a: seq<Byte>): string
    requires |a| == 4
  {
    Dec(a[0]) + ['.'] + (Dec(a[1]) + ['.'] + (Dec(a[2]) + ['.'] + Dec(a[3])))
  }

  lemma DecField(n: nat)
    requires n < 256
    ensures Fields(Dec(n), '.') == [Dec(n)] && IsOctet(Dec(n)) && Val(10, Dec(n)) == n
  {
    DecIsDecimal(n);
    FieldsOfOne(Dec(n), '.');
  }

  lemma FieldsOfFour(a: string, b: string, c: string, d: string)
    requires Fields(a, '.') == [a] && Fields(b, '.') == [b] && Fields(c, '.') == [c] && Fields(d, '.') == [d]
    ensures Fields(a + ['.'] + (b + ['.'] + (c + ['.'] + d)), '.') == [a, b, c, d]
  {
    FieldsConcat(c, d, '.');
    FieldsConcat(b, c + ['.'] + d, '.');
    FieldsConcat(a, b + ['.'] + (c + ['.'] + d), '.');
  }

  lemma QuadOf(s: string, f: seq<string>, a: seq<Byte>)
    requires Fields(s, '.') == f && |f| == |a| == 4
    requires forall i :: 0 <= i < 4 ==> IsOctet(f[i]) && Val(10, f[i]) == a[i]
    ensures IsQuad(s) && QuadBytes(s) == a
  {
  }

  /** Printing an IPv4 address and parsing it gives it back. */
  lemma Print4RoundTrip(a: seq<Byte>)
    requires |a| == 4
    ensures IsQuad(Print4(a)) && QuadBytes(Print4(a)) == a
  {
    DecField(a[0]);
    DecField(a[1]);
    DecField(a[2]);
    DecField(a[3]);
    FieldsOfFour(Dec(a[0]), Dec(a[1]), Dec(a[2]), Dec(a[3]));
    QuadOf(Print4(a), [Dec(a[0]), Dec(a[1]), Dec(a[2]), Dec(a[3])], a);
  }

  /** A dotted quad has no dot at its start or end, and no two in a row. */
  lemma DotsAreApart(a: string, b: string)
    requires IsQuad(a + ['.'] + b)
    ensures a != "" && b != "" && a[|a| - 1] != '.' && b[0] != '.'
  {
    FieldsConcat(a, b, '.');
    var f, g := Fields(a, '.'), Fields(b, '.');
    assert (f + g)[0] == f[0] && (f + g)[|f| - 1] == f[|f| - 1] && (f + g)[|f|] == g[0];
    EdgeFields(a, '.');
    EdgeFields(b, '.');
  }

  /** A text that starts or ends with a separator has an empty field there. */
  lemma EdgeFields(s: string, sep: char)
    ensures s == "" || s[0] == sep ==> Fields(s, sep)[0] == ""
    ensures s == "" || s[|s| - 1] == sep ==> Last(Fields(s, sep)) == ""
  {
    if s != "" && s[0] == sep {
      assert s == "" + [sep] + s[1..];
      FieldsConcat("", s[1..], sep);
    }
  }

  // ----- IPv6 forms

  /** How many fields are empty. */
  function Gaps(closed: seq<string>): (n: nat)
    ensures n <= |closed|
  {
    if closed == [] then 0
    else Gaps(closed[..|closed| - 1]) + (if closed[|closed| - 1] == "" then 1 else 0)
  }

  /** What may stand before the last colon: groups, at most eight of them, and at most one empty field for
      the double colon. */
  lemma {:induction false} ScanIff(closed: seq<string>)
    ensures Scan(closed).Some? <==>
            && (forall i :: 0 <= i < |closed| ==> closed[i] == "" || IsGroup(closed[i]))
            && Gaps(closed) <= 1 && 2 * (|closed| - Gaps(closed)) <= ADDRESS_SIZE
    ensures Scan(closed).Some? ==>
            && |Scan(closed).value.bytes| == 2 * (|closed| - Gaps(closed))
            && (Scan(closed).value.gap.Some? <==> Gaps(closed) == 1)
  {
    if closed != [] {
      ScanIff(closed[..|closed| - 1]);
    }
  }

  /** Zeros in front do not matter, however many. */
  lemma {:induction false} ZerosInFront(base: nat, n: nat, t: string)
    requires base == 10 || base == 16
    ensures Val(base, Repeated('0', n) + t) == Val(base, t)
  {
    if t == "" {
      assert Repeated('0', n) + t == Repeated('0', n);
      OnlyZeros(base, n);
    } else {
      var k := |t| - 1;
      ZerosInFront(base, n, t[..k]);
      assert Repeated('0', n) + t == (Repeated('0', n) + t[..k]) + [t[k]];
      ValSnoc(base, Repeated('0', n) + t[..k], t[k]);
    }
  }

  lemma {:induction false} OnlyZeros(base: nat, n: nat)
    requires base == 10 || base == 16
    ensures Val(base, Repeated('0', n)) == 0
  {
    if n > 0 {
      OnlyZeros(base, n - 1);
      assert Repeated('0', n) == Repeated('0', n - 1) + ['0'];
      ValSnoc(base, Repeated('0', n - 1), '0');
    }
  }

  /** Octets and groups stay what they are with zeros in front. */
  lemma PaddedFields(n: nat, t: string)
    requires t != ""
    ensures IsOctet(Repeated('0', n) + t) <==> IsOctet(t)
    ensures IsGroup(Repeated('0', n) + t) <==> IsGroup(t)
  {
    var padded := Repeated('0', n) + t;
    ZerosInFront(10, n, t);
    ZerosInFront(16, n, t);
    assert forall i :: 0 <= i < |t| ==> t[i] == padded[n + i];
    assert forall i :: n <= i < |padded| ==> padded[i] == t[i - n];
    assert forall i :: 0 <= i < n ==> padded[i] == '0';
  }

  function Repeated(c: char, n: nat): string {
    seq(n, _ => c)
  }

  /** Without a double colon it takes exactly eight groups. */
  lemma GroupCount(ts: seq<string>)
    requires AllGroups(ts) && ts != []
    ensures Parse6(Join(ts)).Some? <==> |ts| == 8
  {
    assert IsTail(ts);
    TailStart(ts);
    FieldsOfGroups(ts);
    ScanIff(ts[..|ts| - 1]);
    NoGaps(ts[..|ts| - 1]);
    NoColon(ts[|ts| - 1]);
    assert Closed(ts) == ts[..|ts| - 1] && Last(ts) == ts[|ts| - 1];
  }

  lemma {:induction false} NoGaps(ts: seq<string>)
    requires AllGroups(ts)
    ensures Gaps(ts) == 0
  {
    if ts != [] {
      NoGaps(ts[..|ts| - 1]);
    }
  }

  /** A colon after eight groups is not noticed. */
  lemma TrailingColon(ts: seq<string>)
    requires AllGroups(ts) && |ts| == 8
    ensures Parse6(Join(ts) + [':']) == Some(Bytes(ts))
  {
    var s := Join(ts) + [':'];
    assert IsTail(ts);
    TailStart(ts);
    FieldsOfGroups(ts);
    FieldsSnoc(Join(ts), ':', ':');
    ScanGroups([], Partial([], None), ts);
    assert [] + ts == ts && [] + Bytes(ts) == Bytes(ts);
    ScanNothing(ts, Partial(Bytes(ts), None), s);
    FullAddress(s, Partial(Bytes(ts), None));
  }

  /** A single colon at the start is refused. */
  lemma LoneColonIsRefused(s: string)
    requires s != "" && s[0] == ':' && (|s| == 1 || s[1] != ':')
    ensures Parse6(s) == None
  {
  }

  /** Fields joined by colons. */
  function Join(ts: seq<string>): string {
    if ts == [] then "" else if |ts| == 1 then ts[0]
    else Join(ts[..|ts| - 1]) + [':'] + ts[|ts| - 1]
  }

  predicate AllGroups(ts: seq<string>) {
    forall i :: 0 <= i < |ts| ==> IsGroup(ts[i])
  }

  /** Groups, the last of which may be a dotted quad. */
  predicate IsTail(ts: seq<string>) {
    ts == [] || (AllGroups(ts[..|ts| - 1]) && (IsGroup(ts[|ts| - 1]) || IsQuad(ts[|ts| - 1])))
  }

  function Bytes(ts: seq<string>): (b: seq<Byte>)
    requires AllGroups(ts)
    ensures |b| == 2 * |ts|
  {
    if ts == [] then [] else Bytes(ts[..|ts| - 1]) + GroupBytes(ts[|ts| - 1])
  }

  function FieldBytes(t: string): seq<Byte>
    requires IsGroup(t) || IsQuad(t)
  {
    if IsGroup(t) then GroupBytes(t) else QuadBytes(t)
  }

  /** The bytes of a tail: a dotted quad stands for two groups. */
  function TailBytes(ts: seq<string>): seq<Byte>
    requires IsTail(ts)
  {
    if ts == [] then [] else Bytes(ts[..|ts| - 1]) + FieldBytes(ts[|ts| - 1])
  }

  lemma NoColon(t: string)
    requires IsGroup(t) || IsQuad(t)
    ensures ':' !in t && t != ""
    ensures IsGroup(t) <==> '.' !in t
  {
    if IsQuad(t) {
      FieldChars(t, '.');
      if '.' !in t {
        FieldsOfOne(t, '.');
      }
      assert IsGroup(t) ==> '.' !in t;
    }
  }

  lemma {:induction false} FieldsJoin(ts: seq<string>)
    requires forall i :: 0 <= i < |ts| ==> ':' !in ts[i]
    ensures Fields(Join(ts), ':') == if ts == [] then [""] else ts
  {
    if |ts| == 1 {
      FieldsOfOne(ts[0], ':');
    } else if |ts| > 1 {
      var n := |ts| - 1;
      FieldsJoin(ts[..n]);
      FieldsConcat(Join(ts[..n]), ts[n], ':');
      FieldsOfOne(ts[n], ':');
    }
  }

  lemma TailHasNoColons(ts: seq<string>)
    requires IsTail(ts)
    ensures forall i :: 0 <= i < |ts| ==> ':' !in ts[i]
  {
    forall i | 0 <= i < |ts|
      ensures ':' !in ts[i]
    {
      assert i < |ts| - 1 ==> ts[..|ts| - 1][i] == ts[i];
      NoColon(ts[i]);
    }
  }

  /** Scanning groups after some closed fields adds their bytes. */
  lemma {:induction false} ScanGroups(closed: seq<string>, p: Partial, ts: seq<string>)
    requires Scan(closed) == Some(p) && AllGroups(ts) && |p.bytes| + 2 * |ts| <= ADDRESS_SIZE
    ensures Scan(closed + ts) == Some(p.(bytes := p.bytes + Bytes(ts)))
  {
    if ts == [] {
      assert closed + ts == closed && p.bytes + [] == p.bytes;
    } else {
      var n := |ts| - 1;
      ScanGroups(closed, p, ts[..n]);
      assert closed + ts == (closed + ts[..n]) + [ts[n]];
      ScanSnoc(closed + ts[..n], ts[n]);
      assert p.bytes + Bytes(ts[..n]) + GroupBytes(ts[n]) == p.bytes + Bytes(ts);
    }
  }

  lemma ScanLast(closed: seq<string>, p: Partial, t: string, body: string)
    requires Scan(closed) == Some(p) && Fields(body, ':') == closed + [t]
    requires IsGroup(t) || IsQuad(t)
    requires |p.bytes| + |FieldBytes(t)| <= ADDRESS_SIZE
    ensures ScanBody(body) == Some(p.(bytes := p.bytes + FieldBytes(t)))
  {
    assert Closed(closed + [t]) == closed;
    NoColon(t);
  }

  lemma ScanNothing(closed: seq<string>, p: Partial, body: string)
    requires Scan(closed) == Some(p) && Fields(body, ':') == closed + [""]
    ensures ScanBody(body) == Some(p)
  {
    assert Closed(closed + [""]) == closed;
  }

  /** A tail after some closed fields, read to the end. */
  lemma ScanTail(closed: seq<string>, p: Partial, ts: seq<string>, body: string)
    requires Scan(closed) == Some(p) && IsTail(ts) && |p.bytes| + |TailBytes(ts)| <= ADDRESS_SIZE
    requires Fields(body, ':') == closed + (if ts == [] then [""] else ts)
    ensures ScanBody(body) == Some(p.(bytes := p.bytes + TailBytes(ts)))
  {
    if ts == [] {
      ScanNothing(closed, p, body);
      assert p.bytes + [] == p.bytes;
    } else {
      var n := |ts| - 1;
      var init, t := ts[..n], ts[n];
      SplitLast(closed, ts);
      ScanGroups(closed, p, init);
      ScanLast(closed + init, p.(bytes := p.bytes + Bytes(init)), t, body);
      ConcatAssociates(p.bytes, Bytes(init), FieldBytes(t));
    }
  }

  lemma SplitLast(closed: seq<string>, ts: seq<string>)
    requires ts != []
    ensures closed + ts == (closed + ts[..|ts| - 1]) + [ts[|ts| - 1]]
  {
  }

  lemma FullScan(ts: seq<string>)
    requires IsTail(ts) && |TailBytes(ts)| == ADDRESS_SIZE
    ensures ScanBody(Join(ts)) == Some(Partial(TailBytes(ts), None))
  {
    TailHasNoColons(ts);
    FieldsJoin(ts);
    assert [] + ts == ts;
    ScanTail([], Partial([], None), ts, Join(ts));
    assert [] + TailBytes(ts) == TailBytes(ts);
  }

  lemma FullAddress(s: string, p: Partial)
    requires s != "" && s[0] != ':' && ScanBody(s) == Some(p) && p.gap == None && |p.bytes| == ADDRESS_SIZE
    ensures Parse6(s) == Some(p.bytes)
  {
  }

  /** The full form: groups, perhaps with a dotted quad at the end, that make sixteen bytes. */
  lemma FullForm(ts: seq<string>)
    requires IsTail(ts) && |TailBytes(ts)| == ADDRESS_SIZE
    ensures Parse6(Join(ts)) == Some(TailBytes(ts))
  {
    FullScan(ts);
    TailStart(ts);
    FullAddress(Join(ts), Partial(TailBytes(ts), None));
  }

  lemma TailStart(ts: seq<string>)
    requires IsTail(ts) && ts != []
    ensures Join(ts) != "" && Join(ts)[0] != ':'
  {
    assert |ts| > 1 ==> ts[..|ts| - 1][0] == ts[0];
    NoColon(ts[0]);
    NoLeadingColon(ts);
  }

  lemma {:induction false} NoLeadingColon(ts: seq<string>)
    requires ts != [] && ts[0] != "" && ':' !in ts[0]
    ensures Join(ts) != "" && Join(ts)[0] != ':'
  {
    if |ts| > 1 {
      NoLeadingColon(ts[..|ts| - 1]);
    }
  }

  lemma FieldsAroundGap(a: string, b: string)
    ensures Fields(":" + b, ':') == [""] + Fields(b, ':')
    ensures Fields(a + ":" + (":" + b), ':') == Fields(a, ':') + ([""] + Fields(b, ':'))
  {
    FieldsConcat("", b, ':');
    assert "" + [':'] + b == ":" + b;
    FieldsConcat(a, ":" + b, ':');
  }

  lemma ParseAroundGap(a: string, b: string)
    requires a != "" ==> a[0] != ':'
    ensures Parse6(a + ":" + (":" + b)) == ParseBody(if a == "" then ":" + b else a + ":" + (":" + b))
  {
    var s := a + ":" + (":" + b);
    if a == "" {
      assert s[1..] == ":" + b;
    }
  }

  /** The part of a text with a double colon that is scanned. */
  function GapBody(l: seq<string>, r: seq<string>): string {
    if l == [] then ":" + Join(r) else Join(l) + ":" + (":" + Join(r))
  }

  lemma GapParse(l: seq<string>, r: seq<string>)
    requires AllGroups(l)
    ensures Parse6(Join(l) + ":" + (":" + Join(r))) == ParseBody(GapBody(l, r))
  {
    if l != [] {
      assert IsTail(l);
      TailStart(l);
    }
    ParseAroundGap(Join(l), Join(r));
  }

  lemma FieldsOfGroups(l: seq<string>)
    requires AllGroups(l) && l != []
    ensures Fields(Join(l), ':') == l
  {
    assert IsTail(l);
    TailHasNoColons(l);
    FieldsJoin(l);
  }

  lemma FieldsOfTail(r: seq<string>)
    requires IsTail(r)
    ensures Fields(Join(r), ':') == if r == [] then [""] else r
  {
    TailHasNoColons(r);
    FieldsJoin(r);
  }

  lemma GapFields(l: seq<string>, r: seq<string>)
    requires AllGroups(l) && IsTail(r)
    ensures Fields(GapBody(l, r), ':') == l + [""] + (if r == [] then [""] else r)
  {
    FieldsOfTail(r);
    if l == [] {
      FieldsAroundGap("", Join(r));
      assert l + [""] == [""];
    } else {
      FieldsOfGroups(l);
      FieldsAroundGap(Join(l), Join(r));
      ConcatAssociates(l, [""], Fields(Join(r), ':'));
    }
  }

  lemma GapScan(l: seq<string>, r: seq<string>)
    requires AllGroups(l) && IsTail(r) && 2 * |l| + |TailBytes(r)| <= ADDRESS_SIZE
    ensures Parse6(Join(l) + ":" + (":" + Join(r)))
         == Address(Partial(Bytes(l) + TailBytes(r), Some(2 * |l|)))
  {
    GapParse(l, r);
    GapFields(l, r);
    ScanGroups([], Partial([], None), l);
    assert [] + l == l && [] + Bytes(l) == Bytes(l);
    ScanSnoc(l, "");
    ScanTail(l + [""], Partial(Bytes(l), Some(2 * |l|)), r, GapBody(l, r));
  }

  lemma AddressAroundGap(a: seq<Byte>, b: seq<Byte>)
    requires |a| + |b| <= ADDRESS_SIZE
    ensures Address(Partial(a + b, Some(|a|)))
         == Some(if |a| + |b| == ADDRESS_SIZE then a + Zeros(|b|) else a + Zeros(ADDRESS_SIZE - |a| - |b|) + b)
  {
    assert (a + b)[..|a|] == a && (a + b)[|a|..] == b;
  }

  /** The compressed form: a double colon stands for the zeros that are missing. */
  lemma CompressedForm(l: seq<string>, r: seq<string>)
    requires AllGroups(l) && IsTail(r) && 2 * |l| + |TailBytes(r)| < ADDRESS_SIZE
    ensures Parse6(Join(l) + ":" + (":" + Join(r)))
         == Some(Bytes(l) + Zeros(ADDRESS_SIZE - 2 * |l| - |TailBytes(r)|) + TailBytes(r))
  {
    GapScan(l, r);
    AddressAroundGap(Bytes(l), TailBytes(r));
  }

  lemma SameAsZeros(a: seq<Byte>, b: seq<Byte>)
    ensures a + Zeros(|b|) == a + b <==> forall i :: 0 <= i < |b| ==> b[i] == 0
  {
    if a + Zeros(|b|) == a + b {
      assert forall i :: 0 <= i < |b| ==> b[i] == (a + b)[|a| + i] == (a + Zeros(|b|))[|a| + i];
    }
  }

  /** A double colon in a full address is not ignored: what stands behind it is replaced by zeros. So
      it has no effect exactly when that was zero anyway. */
  lemma FullFormWithGap(l: seq<string>, r: seq<string>)
    requires AllGroups(l) && IsTail(r) && 2 * |l| + |TailBytes(r)| == ADDRESS_SIZE
    ensures Parse6(Join(l) + ":" + (":" + Join(r))) == Some(Bytes(l) + Zeros(|TailBytes(r)|))
    ensures Parse6(Join(l) + ":" + (":" + Join(r))) == Some(Bytes(l) + TailBytes(r))
       <==> forall i :: 0 <= i < |TailBytes(r)| ==> TailBytes(r)[i] == 0
  {
    GapScan(l, r);
    AddressAroundGap(Bytes(l), TailBytes(r));
    SameAsZeros(Bytes(l), TailBytes(r));
  }
}
