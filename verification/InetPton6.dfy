/** The IPv6 parser of src/inet_pton.c, proved against the grammar for every text. */
module InetPton6 {
  import opened Common
  import opened Inet
  import InetPton

  /** What any one field of an accepted text is. */
  predicate IsField(t: string) {
    t == "" || IsGroup(t) || IsQuad(t)
  }

  /** A field starts with hexadecimal digits of a small value, up to its first dot. */
  lemma FieldStart(t: string, ext: string)
    requires IsField(t + ext) && '.' !in t
    ensures AllHex(t) && Val(16, t) <= 0xffff
  {
    var w := t + ext;
    assert forall k :: 0 <= k < |t| ==> w[k] == t[k];
    ValGrows(16, t, ext);
    if IsQuad(w) {
      FieldsOfOne(t, '.');
      var e := FieldsExtend(t, ext, '.');
      var o := Fields(w, '.')[0];
      assert o == t + e && IsOctet(o);
      assert forall k :: 0 <= k < |t| ==> o[k] == t[k];
      HexOfSmallDec(o);
      ValGrows(16, t, e);
    }
  }

  /** If the whole text is accepted, then so far all closed fields are, and the open field is the
      start of one; an open field with a dot in it stays open to the end. */
  lemma BodySoFar(pre: string, suf: string) returns (ext: string)
    requires ScanBody(pre + suf).Some?
    ensures var f := Fields(pre, ':');
            && Scan(Closed(f)).Some?
            && IsField(Last(f) + ext)
            && ('.' in Last(f) ==> ext == suf && IsQuad(Last(f) + ext))
  {
    var f, w := Fields(pre, ':'), Fields(pre + suf, ':');
    ext := FieldsExtend(pre, suf, ':');
    FieldAt(f, w, ext, suf);
  }

  lemma FieldAt(f: seq<string>, w: seq<string>, ext: string, suf: string)
    requires f != [] && Extends(f, w, ext, suf)
    requires Scan(Closed(w)).Some? && LastField(Scan(Closed(w)).value, Last(w)).Some?
    ensures Scan(Closed(f)).Some? && IsField(Last(f) + ext)
    ensures '.' in Last(f) ==> ext == suf && IsQuad(Last(f) + ext)
  {
    var t := Last(f) + ext;
    assert Closed(w)[..|f| - 1] == Closed(f);
    ScanPrefix(Closed(w), |f| - 1);
    assert '.' in Last(f) ==> '.' in t && !IsGroup(t);
    if |w| > |f| {
      ScanPrefix(Closed(w), |f|);
      assert Closed(w)[..|f|] == Closed(f) + [t];
      ScanSnoc(Closed(f), t);
    }
  }

  /** The state of the scan between two characters. */
  predicate BodyStart(f: seq<string>)
    requires f != []
  {
    Scan(Closed(f)).Some? && AllHex(Last(f)) && Val(16, Last(f)) <= 0xffff
  }

  /** One more character that is neither a colon nor a dot. */
  lemma DigitNext(pre: string, ch: char, suf: string, f: seq<string>) returns (g: seq<string>)
    requires f == Fields(pre, ':') && BodyStart(f) && ch != ':' && ch != '.'
    ensures g == Fields(pre + [ch], ':') && Closed(g) == Closed(f) && |Last(g)| == |Last(f)| + 1
    ensures Val(16, Last(g)) == 16 * Val(16, Last(f)) + Digit(ch)
    ensures if IsHex(ch) && Val(16, Last(g)) <= 0xffff then BodyStart(g) else ScanBody(pre + [ch] + suf).None?
  {
    FieldsSnoc(pre, ch, ':');
    g := Fields(pre + [ch], ':');
    ValSnoc(16, Last(f), ch);
    assert Closed(g) == Closed(f);
    DigitField(Last(f), ch, Last(g));
    if ScanBody(pre + [ch] + suf).Some? {
      var ext := BodySoFar(pre + [ch], suf);
      FieldStart(Last(g), ext);
    }
  }

  lemma DigitField(t: string, ch: char, u: string)
    requires u == t + [ch] && AllHex(t) && ch != '.'
    ensures '.' !in u && (AllHex(u) <==> IsHex(ch))
  {
    assert u[|t|] == ch;
    assert forall k :: 0 <= k < |t| ==> u[k] == t[k] && IsHex(t[k]);
  }

  /** A colon closes the open field. */
  lemma ColonNext(pre: string, suf: string, f: seq<string>) returns (g: seq<string>)
    requires f == Fields(pre, ':') && BodyStart(f)
    ensures g == Fields(pre + [':'], ':') && Last(g) == ""
    ensures Scan(Closed(g)) == Field(Scan(Closed(f)).value, Last(f))
    ensures if Scan(Closed(g)).Some? then BodyStart(g) else ScanBody(pre + [':'] + suf).None?
  {
    FieldsSnoc(pre, ':', ':');
    g := Fields(pre + [':'], ':');
    assert Closed(g) == f && f == Closed(f) + [Last(f)];
    ScanSnoc(Closed(f), Last(f));
    if ScanBody(pre + [':'] + suf).Some? {
      var ext := BodySoFar(pre + [':'], suf);
    }
  }

  lemma OpenDot(pre: string, f: seq<string>)
    requires f == Fields(pre, ':')
    ensures Last(Fields(pre + ['.'], ':')) == Last(f) + ['.'] && '.' in Last(f) + ['.']
  {
    FieldsSnoc(pre, '.', ':');
    assert (Last(f) + ['.'])[|Last(f)|] == '.';
  }

  /** If a text is accepted that has a dot, it is in a dotted quad at the end. */
  lemma DotNeedsQuad(pre: string, suf: string, f: seq<string>)
    requires f == Fields(pre, ':') && ScanBody(pre + ['.'] + suf).Some?
    ensures IsQuad(Last(f) + (['.'] + suf))
  {
    OpenDot(pre, f);
    var ext := BodySoFar(pre + ['.'], suf);
    assert Last(f) + ['.'] + suf == Last(f) + (['.'] + suf);
  }

  lemma QuadHasNoColon(t: string, rest: string)
    requires IsQuad(t + rest)
    ensures ':' !in rest
  {
    FieldChars(t + rest, '.');
    assert forall k :: 0 <= k < |rest| ==> rest[k] == (t + rest)[|t| + k];
  }

  /** If the text goes on with a dotted quad, that is its last field. */
  lemma QuadIsLast(pre: string, rest: string, f: seq<string>)
    requires f == Fields(pre, ':') && ':' !in rest
    ensures Closed(Fields(pre + rest, ':')) == Closed(f) && Last(Fields(pre + rest, ':')) == Last(f) + rest
  {
    var ext := FieldsExtend(pre, rest, ':');
  }

  /** At a dot, the text is accepted exactly if the rest of it, from the start of the open field, is
      a dotted quad that fits. */
  lemma DotNext(pre: string, suf: string, f: seq<string>)
    requires f == Fields(pre, ':') && BodyStart(f)
    ensures var rest := Last(f) + (['.'] + suf);
            && '.' in rest
            && ScanBody(pre + ['.'] + suf) == if IsQuad(rest) then LastField(Scan(Closed(f)).value, rest) else None
  {
    var rest := Last(f) + (['.'] + suf);
    assert rest[|Last(f)|] == '.';
    assert pre + ['.'] + suf == pre + (['.'] + suf);
    if IsQuad(rest) {
      QuadHasNoColon(Last(f), ['.'] + suf);
      QuadIsLast(pre, ['.'] + suf, f);
    } else if ScanBody(pre + ['.'] + suf).Some? {
      DotNeedsQuad(pre, suf, f);
    }
  }

  // ----- The parser

  /** The buffer holds what was read so far, and zeros after it. */
  ghost predicate Holds(tmp: array<Byte>, tp: nat, colonp: Option<nat>, p: Partial)
    reads tmp
  {
    && tmp.Length == ADDRESS_SIZE && tp == |p.bytes| <= ADDRESS_SIZE && colonp == p.gap
    && (forall j :: 0 <= j < tp ==> tmp[j] == p.bytes[j])
    && (forall j :: tp <= j < ADDRESS_SIZE ==> tmp[j] == 0)
  }

  method StoreGroup(tmp: array<Byte>, tp: nat, colonp: Option<nat>, val: nat, ghost p: Partial, ghost t: string)
    requires Holds(tmp, tp, colonp, p) && tp + 2 <= ADDRESS_SIZE && IsGroup(t) && val == Val(16, t)
    modifies tmp
    ensures Holds(tmp, tp + 2, colonp, p.(bytes := p.bytes + GroupBytes(t)))
  {
    tmp[tp] := val / 256;
    tmp[tp + 1] := val % 256;
  }

  lemma CurrentToken(pre: string, rest: string, curtok: nat, f: seq<string>)
    requires f == Fields(pre, ':') && curtok + |Last(f)| == |pre|
    ensures (pre + rest)[curtok..] == Last(f) + rest
  {
    LastIsSuffix(pre, ':');
    assert pre[curtok..] == Last(f);
  }

  lemma LastGroup(t: string)
    requires t != "" && AllHex(t)
    ensures '.' !in t
  {
  }

  /** Where the loop stands after i characters: the fields so far, and what they have come to. */
  ghost predicate Reading(body: string, i: nat, f: seq<string>, p: Partial)
    requires i <= |body|
  {
    f == Fields(body[..i], ':') && BodyStart(f) && Scan(Closed(f)) == Some(p)
  }

  lemma Around(body: string, i: nat)
    requires i < |body|
    ensures body == body[..i] + [body[i]] + body[i + 1..]
    ensures body == body[..i] + ([body[i]] + body[i + 1..])
    ensures body[..i + 1] == body[..i] + [body[i]]
  {
  }

  /** The branch for a colon. */
  method ReadColon(body: string, i: nat, tmp: array<Byte>, tp: nat, colonp: Option<nat>, sawXdigit: bool, val: nat,
                   ghost f: seq<string>, ghost p: Partial)
    returns (ok: bool, tp': nat, colonp': Option<nat>, ghost f': seq<string>, ghost p': Partial)
    requires i < |body| && body[i] == ':' && Reading(body, i, f, p) && Holds(tmp, tp, colonp, p)
    requires val == Val(16, Last(f)) && sawXdigit == (Last(f) != "")
    modifies tmp
    ensures if ok then Reading(body, i + 1, f', p') && Last(f') == "" && Holds(tmp, tp', colonp', p')
            else ScanBody(body).None?
  {
    ok, tp', colonp', p' := true, tp, colonp, p;
    Around(body, i);
    f' := ColonNext(body[..i], body[i + 1..], f);
    if !sawXdigit {
      if colonp.Some? {
        ok := false;
        return;
      }
      colonp' := Some(tp);
    } else {
      if tp + 2 > ADDRESS_SIZE {
        ok := false;
        return;
      }
      StoreGroup(tmp, tp, colonp, val, p, Last(f));
      tp' := tp + 2;
    }
    p' := Scan(Closed(f')).value;
  }

  /** The branch for a dot: the rest of the text from the start of the field must be a quad. */
  method ReadDot(body: string, i: nat, curtok: nat, tmp: array<Byte>, tp: nat, colonp: Option<nat>,
                 ghost f: seq<string>, ghost p: Partial)
    returns (ok: bool)
    requires i < |body| && body[i] == '.' && Reading(body, i, f, p) && Holds(tmp, tp, colonp, p)
    requires curtok + |Last(f)| == i
    modifies tmp
    ensures ok == ScanBody(body).Some?
    ensures ok ==> Holds(tmp, tp + 4, colonp, ScanBody(body).value)
  {
    Around(body, i);
    DotNext(body[..i], body[i + 1..], f);
    CurrentToken(body[..i], ['.'] + body[i + 1..], curtok, f);
    ok := false;
    if tp + 4 <= ADDRESS_SIZE {
      ok := InetPton.InetPton4(body[curtok..], tmp, tp);
    }
  }

  /** The branch for any other character. */
  method ReadDigit(body: string, i: nat, val: nat, ghost f: seq<string>, ghost p: Partial)
    returns (ok: bool, val': nat, ghost f': seq<string>)
    requires i < |body| && body[i] != ':' && body[i] != '.' && Reading(body, i, f, p) && val == Val(16, Last(f))
    ensures if ok then Reading(body, i + 1, f', p) && |Last(f')| == |Last(f)| + 1 && val' == Val(16, Last(f'))
            else ScanBody(body).None?
  {
    Around(body, i);
    f' := DigitNext(body[..i], body[i], body[i + 1..], f);
    val' := val * 16 + Digit(body[i]);
    ok := IsHex(body[i]) && val' <= 0xffff;
  }

  /** The loop of inet_pton6 over the characters of the text. */
  method ReadBody(body: string, tmp: array<Byte>) returns (ok: bool, tp: nat, colonp: Option<nat>)
    requires Holds(tmp, 0, None, Partial([], None))
    modifies tmp
    ensures ok == ScanBody(body).Some?
    ensures ok ==> Holds(tmp, tp, colonp, ScanBody(body).value)
  {
    ok, tp, colonp := true, 0, None;
    var curtok, sawXdigit, val, i := 0, false, 0, 0;
    ghost var f, p := [""], Partial([], None);
    while i < |body|
      invariant 0 <= i <= |body| && ok && Reading(body, i, f, p) && Holds(tmp, tp, colonp, p)
      invariant val == Val(16, Last(f)) && sawXdigit == (Last(f) != "") && curtok + |Last(f)| == i
    {
      if body[i] == ':' {
        ok, tp, colonp, f, p := ReadColon(body, i, tmp, tp, colonp, sawXdigit, val, f, p);
        curtok, sawXdigit, val := i + 1, false, 0;
      } else if body[i] == '.' {
        ok := ReadDot(body, i, curtok, tmp, tp, colonp, f, p);
        tp := tp + 4;
        return;
      } else {
        ok, val, f := ReadDigit(body, i, val, f, p);
        sawXdigit := true;
      }
      if !ok {
        return;
      }
      i := i + 1;
    }
    assert body[..i] == body;
    if sawXdigit {
      LastGroup(Last(f));
      if tp + 2 > ADDRESS_SIZE {
        ok := false;
        return;
      }
      StoreGroup(tmp, tp, colonp, val, p, Last(f));
      tp := tp + 2;
    }
  }

  lemma AddressBytes(p: Partial, g: nat, t: seq<Byte>)
    requires |p.bytes| <= ADDRESS_SIZE == |t| && p.gap == Some(g) && g <= |p.bytes|
    requires forall j :: 0 <= j < g ==> t[j] == p.bytes[j]
    requires forall j :: g <= j < g + ADDRESS_SIZE - |p.bytes| ==> t[j] == 0
    requires forall j :: g + ADDRESS_SIZE - |p.bytes| <= j < ADDRESS_SIZE ==>
               t[j] == if |p.bytes| == ADDRESS_SIZE then 0 else p.bytes[j - (ADDRESS_SIZE - |p.bytes|)]
    ensures Address(p) == Some(t)
  {
    assert Address(p).value == t;
  }

  /** The shift by hand: moves the bytes behind the gap to the end, last byte first, with zeros in
      their old places. In a full address source and target are the same byte, so it becomes zero. */
  method ShiftToEnd(tmp: array<Byte>, colonp: nat, tp: nat, ghost bytes: seq<Byte>)
    requires tmp.Length == ADDRESS_SIZE && colonp <= tp <= ADDRESS_SIZE && |bytes| == tp
    requires forall j :: 0 <= j < tp ==> tmp[j] == bytes[j]
    requires forall j :: tp <= j < ADDRESS_SIZE ==> tmp[j] == 0
    modifies tmp
    ensures forall j :: 0 <= j < colonp ==> tmp[j] == bytes[j]
    ensures forall j :: colonp <= j < colonp + ADDRESS_SIZE - tp ==> tmp[j] == 0
    ensures forall j :: colonp + ADDRESS_SIZE - tp <= j < ADDRESS_SIZE ==>
              tmp[j] == if tp == ADDRESS_SIZE then 0 else bytes[j - (ADDRESS_SIZE - tp)]
  {
    var n, i := tp - colonp, 1;
    ghost var room := ADDRESS_SIZE - tp;
    while i <= n
      invariant 1 <= i <= n + 1
      invariant forall j :: 0 <= j < tp - (i - 1) ==> tmp[j] == bytes[j]
      invariant forall j :: tp - (i - 1) <= j < ADDRESS_SIZE - (i - 1) ==> tmp[j] == 0
      invariant forall j :: ADDRESS_SIZE - (i - 1) <= j < ADDRESS_SIZE ==>
                  tmp[j] == if room == 0 then 0 else bytes[j - room]
    {
      tmp[ADDRESS_SIZE - i] := tmp[colonp + n - i];
      tmp[colonp + n - i] := 0;
      i := i + 1;
    }
  }

  method SpreadGap(tmp: array<Byte>, colonp: nat, tp: nat, ghost p: Partial)
    requires Holds(tmp, tp, Some(colonp), p) && colonp <= tp
    modifies tmp
    ensures Address(p) == Some(tmp[..])
  {
    ShiftToEnd(tmp, colonp, tp, p.bytes);
    AddressBytes(p, colonp, tmp[..]);
  }

  /** inet_pton6: accepts exactly the texts of the grammar, and writes to dst only then. */
  method InetPton6(src: string, dst: array<Byte>) returns (ok: bool)
    requires dst.Length == ADDRESS_SIZE
    modifies dst
    ensures ok == Parse6(src).Some?
    ensures if ok then dst[..] == Parse6(src).value else dst[..] == old(dst[..])
  {
    var tmp := new Byte[ADDRESS_SIZE](_ => 0);
    var body := src;
    if src != "" && src[0] == ':' {
      if |src| < 2 || src[1] != ':' {
        return false;
      }
      body := src[1..];
    }
    var tp, colonp;
    ok, tp, colonp := ReadBody(body, tmp);
    if !ok {
      return;
    }
    if colonp.Some? {
      SpreadGap(tmp, colonp.value, tp, ScanBody(body).value);
      tp := ADDRESS_SIZE;
    }
    if tp != ADDRESS_SIZE {
      return false;
    }
    if colonp.None? {
      assert tmp[..] == ScanBody(body).value.bytes;
    }
    assert Parse6(src) == Some(tmp[..]);
    forall k | 0 <= k < ADDRESS_SIZE {
      dst[k] := tmp[k];
    }
    assert dst[..] == tmp[..];
  }
}
