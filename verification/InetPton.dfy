/** The address parsers of src/inet_pton.c, proved against the grammar for every text. */
module InetPton {
  import opened Common
  import opened Inet

  /** The fields of a text that may still become a dotted quad. */
  predicate QuadStart(f: seq<string>)
    requires f != []
  {
    && |f| <= 4
    && (forall j :: 0 <= j < |f| - 1 ==> IsOctet(f[j]))
    && AllDec(Last(f)) && Val(10, Last(f)) <= 255
  }

  lemma QuadSoFar(s: string, i: nat)
    requires i <= |s|
    ensures IsQuad(s) ==> QuadStart(Fields(s[..i], '.'))
  {
    assert s == s[..i] + s[i..];
    var f, g := Fields(s[..i], '.'), Fields(s, '.');
    var ext := FieldsExtend(s[..i], s[i..], '.');
    ValGrows(10, Last(f), ext);
    assert forall k :: 0 <= k < |Last(f)| ==> g[|f| - 1][k] == Last(f)[k];
  }

  /** How one more character changes the fields, and when they may still become a dotted quad. */
  lemma QuadStep(f: seq<string>, ch: char) returns (g: seq<string>)
    requires f != [] && QuadStart(f)
    ensures g == if ch == '.' then f + [""] else Closed(f) + [Last(f) + [ch]]
    ensures ch == '.' ==>
              && |g| == |f| + 1 && Last(g) == "" && (forall j :: 0 <= j < |f| ==> g[j] == f[j])
              && (QuadStart(g) <==> Last(f) != "" && |f| < 4)
    ensures ch != '.' ==>
              && |g| == |f| && Last(g) != "" && (forall j :: 0 <= j < |f| - 1 ==> g[j] == f[j])
              && Val(10, Last(g)) == 10 * Val(10, Last(f)) + Digit(ch)
              && (QuadStart(g) <==> IsDec(ch) && Val(10, Last(g)) <= 255)
  {
    ValSnoc(10, Last(f), ch);
    if ch == '.' {
      g := f + [""];
      assert g[|f| - 1] == Last(f);
    } else {
      g := Closed(f) + [Last(f) + [ch]];
      assert Last(g)[|Last(f)|] == ch;
      assert forall k :: 0 <= k < |Last(f)| ==> Last(g)[k] == Last(f)[k];
    }
  }

  lemma QuadNext(s: string, i: nat, f: seq<string>, ch: char) returns (g: seq<string>)
    requires i < |s| && s[i] == ch && f == Fields(s[..i], '.') && QuadStart(f)
    ensures g == Fields(s[..i + 1], '.')
    ensures ch == '.' ==>
              && |g| == |f| + 1 && Last(g) == "" && (forall j :: 0 <= j < |f| ==> g[j] == f[j])
              && (if Last(f) == "" || |f| == 4 then !IsQuad(s) else QuadStart(g))
    ensures ch != '.' ==>
              && |g| == |f| && Last(g) != "" && (forall j :: 0 <= j < |f| - 1 ==> g[j] == f[j])
              && Val(10, Last(g)) == 10 * Val(10, Last(f)) + Digit(ch)
              && (if !IsDec(ch) || Val(10, Last(g)) > 255 then !IsQuad(s) else QuadStart(g))
  {
    g := QuadStep(f, ch);
    assert s[..i + 1] == s[..i] + [s[i]];
    FieldsSnoc(s[..i], s[i], '.');
    QuadSoFar(s, i + 1);
  }

  lemma QuadEnd(s: string, f: seq<string>)
    requires f == Fields(s, '.') && QuadStart(f)
    ensures IsQuad(s) <==> |f| == 4 && Last(f) != ""
    ensures IsQuad(s) ==> forall j :: 0 <= j < 4 ==> QuadBytes(s)[j] == Val(10, f[j])
  {
  }

  /** inet_pton4: accepts exactly the dotted quads, and writes to dst only then. */
  method InetPton4(src: string, dst: array<Byte>, at: nat) returns (ok: bool)
    requires at + 4 <= dst.Length
    modifies dst
    ensures ok == IsQuad(src)
    ensures ok ==> forall i :: at <= i < at + 4 ==> dst[i] == QuadBytes(src)[i - at]
    ensures forall i :: 0 <= i < dst.Length && !(ok && at <= i < at + 4) ==> dst[i] == old(dst[i])
  {
    var tmp := new Byte[4](_ => 0);
    ok := ReadQuad(src, tmp);
    if ok {
      forall k | at <= k < at + 4 {
        dst[k] := tmp[k - at];
      }
    }
  }

  /** The loop variables agree with the fields read so far. */
  ghost predicate AtChar(src: string, i: nat, f: seq<string>, tmp: array<Byte>, tp: nat, octets: nat, sawDigit: bool)
    reads tmp
  {
    && i <= |src| && f == Fields(src[..i], '.') && QuadStart(f)
    && |f| == tp + 1 && octets == tp + (if sawDigit then 1 else 0) && sawDigit == (Last(f) != "")
    && tmp.Length == 4 && tmp[tp] == Val(10, Last(f)) && forall j :: 0 <= j < tp ==> tmp[j] == Val(10, f[j])
  }

  /** A character that is a digit. */
  method ReadOctetDigit(
    src: string, i: nat, tmp: array<Byte>, tp: nat, octets: nat, sawDigit: bool, ghost f: seq<string>)
    returns (ok: bool, octets': nat, ghost g: seq<string>)
    requires i < |src| && IsDec(src[i]) && AtChar(src, i, f, tmp, tp, octets, sawDigit)
    modifies tmp
    ensures if ok then AtChar(src, i + 1, g, tmp, tp, octets', true) else !IsQuad(src)
  {
    g := QuadNext(src, i, f, src[i]);
    octets' := octets;
    var val := tmp[tp] * 10 + Digit(src[i]);
    ok := val <= 255;
    if !ok {
      return;
    }
    tmp[tp] := val;
    if !sawDigit {
      octets' := octets + 1;
    }
  }

  /** Any other character: only a dot after a digit goes on. */
  method ReadQuadDot(src: string, i: nat, tmp: array<Byte>, tp: nat, octets: nat, sawDigit: bool, ghost f: seq<string>)
    returns (ok: bool, ghost g: seq<string>)
    requires i < |src| && !IsDec(src[i]) && AtChar(src, i, f, tmp, tp, octets, sawDigit)
    modifies tmp
    ensures if ok then AtChar(src, i + 1, g, tmp, tp + 1, octets, false) else !IsQuad(src)
  {
    g := QuadNext(src, i, f, src[i]);
    ok := src[i] == '.' && sawDigit && octets != 4;
    if ok {
      tmp[tp + 1] := 0;
    }
  }

  /** The loop of inet_pton4 over the characters of the text. */
  method ReadQuad(src: string, tmp: array<Byte>) returns (ok: bool)
    requires tmp.Length == 4 && tmp[0] == 0
    modifies tmp
    ensures ok == IsQuad(src)
    ensures ok ==> tmp[..] == QuadBytes(src)
  {
    var sawDigit, octets, tp := false, 0, 0;
    var i := 0;
    ghost var f := [""];
    while i < |src|
      invariant AtChar(src, i, f, tmp, tp, octets, sawDigit)
    {
      if IsDec(src[i]) {
        ok, octets, f := ReadOctetDigit(src, i, tmp, tp, octets, sawDigit, f);
        sawDigit := true;
      } else {
        ok, f := ReadQuadDot(src, i, tmp, tp, octets, sawDigit, f);
        tp, sawDigit := tp + 1, false;
      }
      if !ok {
        return;
      }
      i := i + 1;
    }
    assert src[..i] == src;
    QuadEnd(src, f);
    return octets == 4;
  }
}
