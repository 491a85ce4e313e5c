/** Text forms of internet addresses: the grammar that src/inet_pton.c accepts, stated on the fields
    of the text, and what it yields on well-formed addresses. */
module Inet {

  import opened Common

  // ----- Fields and digits

  /** The pieces of a text between separators. */
  function Fields(s: string, sep: char): (fields: seq<string>)
    ensures fields != []
  {
    if s == "" then [""]
    else
      var n := |s| - 1;
      var init := Fields(s[..n], sep);
      if s[n] == sep then init + [""] else init[|init| - 1 := init[|init| - 1] + [s[n]]]
  }

  function Last(fields: seq<string>): string
    requires fields != []
  {
    fields[|fields| - 1]
  }

  function Closed(fields: seq<string>): seq<string>
    requires fields != []
  {
    fields[..|fields| - 1]
  }

  lemma FieldsSnoc(s: string, c: char, sep: char)
    ensures Fields(s + [c], sep)
         == if c == sep then Fields(s, sep) + [""] else Closed(Fields(s, sep)) + [Last(Fields(s, sep)) + [c]]
  {
    assert (s + [c])[..|s|] == s;
  }

  /** The fields g come from reading t after a text with fields f: the closed fields are kept and
      the last one is extended, by all of t when no field was closed. */
  predicate Extends(f: seq<string>, g: seq<string>, ext: string, t: string)
    requires f != []
  {
    && |g| >= |f|
    && (forall i :: 0 <= i < |f| - 1 ==> g[i] == f[i])
    && g[|f| - 1] == Last(f) + ext
    && (|g| == |f| ==> ext == t)
  }

  lemma ExtendsSnoc(f: seq<string>, g: seq<string>, ext: string, t: string, c: char, sep: char)
    requires f != [] && Extends(f, g, ext, t)
    ensures var h := if c == sep then g + [""] else Closed(g) + [Last(g) + [c]];
            Extends(f, h, if |h| == |f| then ext + [c] else ext, t + [c])
  {
  }

  lemma {:induction false} FieldsExtend(s: string, t: string, sep: char) returns (ext: string)
    ensures Extends(Fields(s, sep), Fields(s + t, sep), ext, t)
    ensures sep !in t ==> |Fields(s + t, sep)| == |Fields(s, sep)|
  {
    if t == "" {
      ext := "";
      assert s + t == s;
    } else {
      var n := |t| - 1;
      ext := FieldsExtend(s, t[..n], sep);
      assert s + t == (s + t[..n]) + [t[n]];
      assert t == t[..n] + [t[n]];
      FieldsSnoc(s + t[..n], t[n], sep);
      ExtendsSnoc(Fields(s, sep), Fields(s + t[..n], sep), ext, t[..n], t[n], sep);
      if |Fields(s + t, sep)| == |Fields(s, sep)| {
        ext := ext + [t[n]];
      }
    }
  }

  lemma FieldsOfOne(t: string, sep: char)
    requires sep !in t
    ensures Fields(t, sep) == [t]
  {
    var ext := FieldsExtend("", t, sep);
    assert "" + t == t;
  }

  lemma {:induction false} LastIsSuffix(s: string, sep: char)
    ensures |Last(Fields(s, sep))| <= |s| && s[|s| - |Last(Fields(s, sep))|..] == Last(Fields(s, sep))
  {
    if s != "" {
      LastIsSuffix(s[..|s| - 1], sep);
    }
  }

  predicate IsDec(c: char) {
    '0' <= c <= '9'
  }

  predicate IsHex(c: char) {
    IsDec(c) || 'a' <= c <= 'f' || 'A' <= c <= 'F'
  }

  function Digit(c: char): (d: nat)
    ensures d < 16 && (IsDec(c) ==> d < 10)
  {
    if IsDec(c) then c as int - '0' as int
    else if 'a' <= c <= 'f' then c as int - 'a' as int + 10
    else if 'A' <= c <= 'F' then c as int - 'A' as int + 10
    else 0
  }

  predicate AllDec(s: string) {
    forall i :: 0 <= i < |s| ==> IsDec(s[i])
  }

  predicate AllHex(s: string) {
    forall i :: 0 <= i < |s| ==> IsHex(s[i])
  }

  function Val(base: nat, s: string): nat {
    if s == "" then 0 else base * Val(base, s[..|s| - 1]) + Digit(s[|s| - 1])
  }

  lemma ValSnoc(base: nat, s: string, c: char)
    ensures Val(base, s + [c]) == base * Val(base, s) + Digit(c)
  {
    assert (s + [c])[..|s|] == s;
  }

  lemma {:induction false} ValGrows(base: nat, s: string, t: string)
    requires base == 10 || base == 16
    ensures Val(base, s + t) >= Val(base, s)
  {
    if t == "" {
      assert s + t == s;
    } else {
      var n := |t| - 1;
      ValGrows(base, s, t[..n]);
      assert s + t == (s + t[..n]) + [t[n]];
      ValSnoc(base, s + t[..n], t[n]);
      var v := Val(base, s + t[..n]);
      assert base * v >= v by {
        if base == 10 {
          assert 10 * v >= v;
        } else {
          assert 16 * v >= v;
        }
      }
    }
  }

  /** Digits that are small in decimal are small in hexadecimal too. */
  lemma {:induction false} HexOfSmallDec(s: string)
    requires AllDec(s)
    ensures Val(10, s) == 0 ==> Val(16, s) == 0
    ensures Val(10, s) < 10 ==> Val(16, s) < 10
    ensures Val(10, s) < 100 ==> Val(16, s) < 160
    ensures Val(10, s) < 1000 ==> Val(16, s) < 2560
  {
    if s != "" {
      HexOfSmallDec(s[..|s| - 1]);
    }
  }

  // ----- IPv4

  /** A field of a dotted quad: not empty, decimal, at most 255; leading zeros are allowed. */
  predicate IsOctet(f: string) {
    f != "" && AllDec(f) && Val(10, f) <= 255
  }

  predicate IsQuad(s: string) {
    var f := Fields(s, '.');
    |f| == 4 && forall i :: 0 <= i < 4 ==> IsOctet(f[i])
  }

  function QuadBytes(s: string): (q: seq<Byte>)
    requires IsQuad(s)
    ensures |q| == 4
  {
    var f := Fields(s, '.');
    [Val(10, f[0]), Val(10, f[1]), Val(10, f[2]), Val(10, f[3])]
  }

  /** A dotted quad has only digits and dots. */
  lemma {:induction false} FieldChars(s: string, sep: char)
    requires forall i :: 0 <= i < |Fields(s, sep)| ==> AllDec(Fields(s, sep)[i])
    ensures forall i :: 0 <= i < |s| ==> IsDec(s[i]) || s[i] == sep
  {
    if s != "" {
      var n := |s| - 1;
      var f, g := Fields(s, sep), Fields(s[..n], sep);
      assert s == s[..n] + [s[n]];
      FieldsSnoc(s[..n], s[n], sep);
      forall i | 0 <= i < |g|
        ensures AllDec(g[i])
      {
        if s[n] != sep && i == |g| - 1 {
          assert f[i] == g[i] + [s[n]];
          assert forall k :: 0 <= k < |g[i]| ==> f[i][k] == g[i][k];
        } else {
          assert f[i] == g[i];
        }
      }
      FieldChars(s[..n], sep);
      if s[n] != sep {
        assert f[|g| - 1][|g[|g| - 1]|] == s[n];
      }
    }
  }

  // ----- IPv6

  const ADDRESS_SIZE: nat := 16

  /** A group: not empty, hexadecimal, at most 0xffff; leading zeros are allowed. */
  predicate IsGroup(t: string) {
    t != "" && AllHex(t) && Val(16, t) <= 0xffff
  }

  function GroupBytes(t: string): (b: seq<Byte>)
    requires IsGroup(t)
    ensures |b| == 2
  {
    [Val(16, t) / 256, Val(16, t) % 256]
  }

  /** The bytes read so far, and where in them the double colon stands. */
  datatype Partial = Partial(bytes: seq<Byte>, gap: Option<nat>)

  /** The fields that a colon closes: groups, and at most one empty field for the double colon. */
  function Scan(closed: seq<string>): (r: Option<Partial>)
    ensures r.Some? ==> |r.value.bytes| <= ADDRESS_SIZE && (r.value.gap.Some? ==> r.value.gap.value <= |r.value.bytes|)
  {
    if closed == [] then Some(Partial([], None))
    else
      var n := |closed| - 1;
      var r := Scan(closed[..n]);
      if r.None? then None else Field(r.value, closed[n])
  }

  function Field(p: Partial, t: string): Option<Partial> {
    if t == "" then
      if p.gap.Some? then None else Some(p.(gap := Some(|p.bytes|)))
    else if IsGroup(t) && |p.bytes| + 2 <= ADDRESS_SIZE then Some(p.(bytes := p.bytes + GroupBytes(t)))
    else None
  }

  /** The last field: nothing, a group, or a dotted quad. */
  function LastField(p: Partial, t: string): Option<Partial> {
    if t == "" then Some(p)
    else if '.' in t then
      if IsQuad(t) && |p.bytes| + 4 <= ADDRESS_SIZE then Some(p.(bytes := p.bytes + QuadBytes(t))) else None
    else if IsGroup(t) && |p.bytes| + 2 <= ADDRESS_SIZE then Some(p.(bytes := p.bytes + GroupBytes(t)))
    else None
  }

  function Zeros(n: nat): (z: seq<Byte>)
    ensures |z| == n && forall i :: 0 <= i < n ==> z[i] == 0
  {
    seq(n, _ => 0)
  }

  /** The address: the bytes behind the gap go to its end and zeros fill the gap. In a full address
      the bytes behind the gap are lost to zeros. */
  function Address(p: Partial): Option<seq<Byte>>
    requires |p.bytes| <= ADDRESS_SIZE && (p.gap.Some? ==> p.gap.value <= |p.bytes|)
  {
    if p.gap.None? then
      if |p.bytes| == ADDRESS_SIZE then Some(p.bytes) else None
    else
      var g := p.gap.value;
      if |p.bytes| == ADDRESS_SIZE then Some(p.bytes[..g] + Zeros(ADDRESS_SIZE - g))
      else Some(p.bytes[..g] + Zeros(ADDRESS_SIZE - |p.bytes|) + p.bytes[g..])
  }

  function ScanBody(body: string): (q: Option<Partial>)
    ensures q.Some? ==> |q.value.bytes| <= ADDRESS_SIZE && (q.value.gap.Some? ==> q.value.gap.value <= |q.value.bytes|)
  {
    var f := Fields(body, ':');
    var r := Scan(Closed(f));
    if r.None? then None else LastField(r.value, Last(f))
  }

  function ParseBody(body: string): Option<seq<Byte>> {
    var q := ScanBody(body);
    if q.None? then None else Address(q.value)
  }

  /** What a text stands for, if anything. A leading colon must be the first of two. */
  function Parse6(s: string): Option<seq<Byte>> {
    if s == "" || s[0] != ':' then ParseBody(s)
    else if |s| < 2 || s[1] != ':' then None
    else ParseBody(s[1..])
  }

  /** A bad closed field spoils the text whatever follows. */
  lemma {:induction false} ScanPrefix(closed: seq<string>, k: nat)
    requires k <= |closed| && Scan(closed).Some?
    ensures Scan(closed[..k]).Some?
  {
    if k < |closed| {
      var n := |closed| - 1;
      ScanPrefix(closed[..n], k);
      assert closed[..n][..k] == closed[..k];
    } else {
      assert closed[..k] == closed;
    }
  }

  lemma ScanSnoc(closed: seq<string>, t: string)
    ensures Scan(closed + [t]) == if Scan(closed).None? then None else Field(Scan(closed).value, t)
  {
    assert (closed + [t])[..|closed|] == closed;
  }
}
