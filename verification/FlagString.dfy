/** The text of a flag array, and its parser (src/switch_channel.c, src/switch_core_session.c). */
module FlagString {
  import opened Common
  import opened Inet
  import opened InetForms

  const INTS: nat := 0x1_0000_0000

  type Flag = v: nat | v < INTS

  /** The int with the same bits, as the conversion %d prints it, and as a long is cut to an int. */
  function AsInt(v: int): (r: int)
    ensures -(INTS / 2) <= r < INTS / 2 && (-(INTS / 2) <= v < INTS / 2 ==> r == v)
  {
    (v + INTS / 2) % INTS - INTS / 2
  }

  function AsFlag(v: int): Flag {
    v % INTS
  }

  lemma FlagOfInt(v: Flag)
    ensures AsFlag(AsInt(v)) == v
  {
  }

  // ----- Numbers

  function IntText(v: int): string {
    if v < 0 then ['-'] + Dec(-v) else Dec(v)
  }

  function Digits(s: string): string {
    if s == "" || !IsDec(s[0]) then "" else [s[0]] + Digits(s[1..])
  }

  predicate IsSpace(c: char) {
    c == ' ' || 9 as char <= c <= 13 as char
  }

  /** The C atoi: white space, a sign, and the digits up to the first other character. */
  function Atoi(s: string): int {
    if s == "" then 0
    else if IsSpace(s[0]) then Atoi(s[1..])
    else if s[0] == '-' then AsInt(0 - Val(10, Digits(s[1..])))
    else if s[0] == '+' then AsInt(Val(10, Digits(s[1..])))
    else AsInt(Val(10, Digits(s)))
  }

  lemma {:induction false} DigitsOfDecimal(s: string)
    requires AllDec(s)
    ensures Digits(s) == s
  {
    if s != "" {
      DigitsOfDecimal(s[1..]);
    }
  }

  lemma AtoiOfIntText(v: int)
    requires -(INTS / 2) <= v < INTS / 2
    ensures Atoi(IntText(v)) == v
  {
    var n := if v < 0 then -v else v;
    DecIsDecimal(n);
    DigitsOfDecimal(Dec(n));
    if v < 0 {
      assert IntText(v)[1..] == Dec(n);
    }
  }

  lemma {:induction false} DigitsStop(digits: string, rest: string)
    requires AllDec(digits) && (rest == "" || !IsDec(rest[0]))
    ensures Digits(digits + rest) == digits
  {
    if digits == "" {
      assert digits + rest == rest;
    } else {
      assert (digits + rest)[1..] == digits[1..] + rest;
      DigitsStop(digits[1..], rest);
    }
  }

  lemma {:induction false} AtoiSkipsSpace(pad: string, s: string)
    requires forall i :: 0 <= i < |pad| ==> IsSpace(pad[i])
    ensures Atoi(pad + s) == Atoi(s)
  {
    if pad == "" {
      assert pad + s == s;
    } else {
      assert (pad + s)[1..] == pad[1..] + s;
      AtoiSkipsSpace(pad[1..], s);
    }
  }

  /** What atoi reads: white space is skipped, a sign may follow, and the number ends at the first character
      that is no digit. */
  lemma AtoiReads(pad: string, sign: string, digits: string, rest: string)
    requires (forall i :: 0 <= i < |pad| ==> IsSpace(pad[i])) && (sign == "" || sign == "+" || sign == "-")
    requires digits != "" && AllDec(digits) && Val(10, digits) < INTS / 2 && (rest == "" || !IsDec(rest[0]))
    ensures Atoi(pad + (sign + (digits + rest))) == if sign == "-" then -(Val(10, digits) as int) else Val(10, digits)
  {
    var s := sign + (digits + rest);
    AtoiSkipsSpace(pad, s);
    DigitsStop(digits, rest);
    if sign == "" {
      assert s == digits + rest;
    } else {
      assert s[1..] == digits + rest;
    }
  }

  // ----- The parser

  /** The C strchr. */
  function StrChr(s: string, c: char): (k: Option<nat>)
    ensures k.Some? ==> k.value < |s| && s[k.value] == c && c !in s[..k.value]
    ensures k.None? ==> c !in s
  {
    if s == "" then None
    else if s[0] == c then Some(0)
    else
      var k := StrChr(s[1..], c);
      assert k.Some? ==> s[..k.value + 1] == [s[0]] + s[1..][..k.value];
      if k.Some? then Some(k.value + 1) else None
  }

  /** A write of a value to a place in the array or beside it. */
  type Write = (int, Flag)

  /** The write that a piece of the text asks for, if any. */
  function Assignment(piece: string): Option<Write> {
    var k := StrChr(piece, '=');
    if k.None? then None else Some((Atoi(piece[..k.value]), AsFlag(Atoi(piece[k.value + 1..]))))
  }

  function Assignments(pieces: seq<string>): (ws: seq<Option<Write>>)
    ensures |ws| == |pieces| && forall i :: 0 <= i < |ws| ==> ws[i] == Assignment(pieces[i])
  {
    if pieces == [] then [] else [Assignment(pieces[0])] + Assignments(pieces[1..])
  }

  function Assign(a: seq<Flag>, w: Option<Write>): (r: seq<Flag>)
    ensures |r| == |a|
  {
    if w.Some? && 0 <= w.value.0 < |a| then a[w.value.0 := w.value.1] else a
  }

  function AssignAll(a: seq<Flag>, ws: seq<Option<Write>>): (r: seq<Flag>)
    ensures |r| == |a|
    decreases |ws|
  {
    if ws == [] then a else AssignAll(Assign(a, ws[0]), ws[1..])
  }

  /** What a slot holds in the end: the value of the last write to it, or what it held before. */
  lemma {:induction false} LastWins(a: seq<Flag>, ws: seq<Option<Write>>, i: nat)
    requires i < |a|
    ensures AssignAll(a, ws)[i] == var last := LastTo(ws, i); if last.Some? then last.value else a[i]
    decreases |ws|
  {
    if ws != [] {
      LastWins(Assign(a, ws[0]), ws[1..], i);
    }
  }

  function LastTo(ws: seq<Option<Write>>, i: int): Option<Flag> {
    if ws == [] then None
    else
      var last := LastTo(ws[1..], i);
      if last.Some? then last else if ws[0].Some? && ws[0].value.0 == i then Some(ws[0].value.1) else None
  }

  /** The writes below the array, which the code does not prevent. */
  function Stray(w: Option<Write>): seq<Write> {
    if w.Some? && w.value.0 < 0 then [w.value] else []
  }

  function Strays(ws: seq<Option<Write>>): seq<Write> {
    if ws == [] then [] else Stray(ws[0]) + Strays(ws[1..])
  }

  /** There are none exactly if no index is negative. */
  lemma {:induction false} StraysIff(ws: seq<Option<Write>>)
    ensures Strays(ws) == [] <==> forall i :: 0 <= i < |ws| ==> ws[i].Some? ==> ws[i].value.0 >= 0
  {
    if ws != [] {
      StraysIff(ws[1..]);
      assert forall i :: 1 <= i < |ws| ==> ws[i] == ws[1..][i - 1];
      assert Strays(ws) == [] <==> Stray(ws[0]) == [] && Strays(ws[1..]) == [];
    }
  }

  lemma FirstField(s: string, k: nat, sep: char)
    requires k < |s| && s[k] == sep && sep !in s[..k]
    ensures Fields(s, sep) == [s[..k]] + Fields(s[k + 1..], sep)
  {
    assert s == s[..k] + [sep] + s[k + 1..];
    FieldsConcat(s[..k], s[k + 1..], sep);
    FieldsOfOne(s[..k], sep);
  }

  /** One turn of the loop: the piece up to the next semicolon assigns, and the rest is left. */
  method ParsePiece(text: string, a: array<Flag>) returns (next: Option<string>, stray: seq<Write>)
    modifies a
    ensures var pieces := Fields(text, ';');
            && a[..] == Assign(old(a[..]), Assignment(pieces[0])) && stray == Stray(Assignment(pieces[0]))
            && pieces[1..] == (if next.Some? then Fields(next.value, ';') else [])
    ensures next.Some? ==> |next.value| < |text|
  {
    var end := StrChr(text, ';');
    if end.Some? {
      FirstField(text, end.value, ';');
      next := Some(text[end.value + 1..]);
      stray := AssignPiece(text[..end.value], a);
    } else {
      FieldsOfOne(text, ';');
      next := None;
      stray := AssignPiece(text, a);
    }
  }

  /** parse_array: the pieces between semicolons assign in their order. The result lists the writes that
      fall below the array. */
  method ParseArray(str: string, a: array<Flag>) returns (strays: seq<Write>)
    modifies a
    ensures var ws := Assignments(Fields(str, ';'));
            a[..] == AssignAll(old(a[..]), ws) && strays == Strays(ws)
  {
    strays := [];
    if str == "" {
      NoItems(a[..]);
      return;
    }
    var p := Some(str);
    ghost var all := Assignments(Fields(str, ';'));
    ghost var ws := all;
    while p.Some?
      invariant ws == if p.Some? then Assignments(Fields(p.value, ';')) else []
      invariant AssignAll(a[..], ws) == AssignAll(old(a[..]), all) && strays + Strays(ws) == Strays(all)
      decreases p.Some?, if p.Some? then |p.value| else 0
    {
      ConcatAssociates(strays, Stray(ws[0]), Strays(ws[1..]));
      var stray;
      p, stray := ParsePiece(p.value, a);
      strays := strays + stray;
      ws := ws[1..];
    }
  }

  method AssignPiece(piece: string, a: array<Flag>) returns (stray: seq<Write>)
    modifies a
    ensures a[..] == Assign(old(a[..]), Assignment(piece)) && stray == Stray(Assignment(piece))
  {
    stray := [];
    var v := StrChr(piece, '=');
    if v.Some? {
      var x, y := Atoi(piece[..v.value]), Atoi(piece[v.value + 1..]);
      if x < a.Length {
        if x >= 0 {
          a[x] := AsFlag(y);
        } else {
          stray := [(x, AsFlag(y))];
        }
      }
    }
  }

  // ----- The printer

  function Item(i: nat, v: Flag): string {
    IntText(AsInt(i)) + ['='] + IntText(AsInt(v))
  }

  /** The format %d=%d: flags of 2^31 and more are printed as negative numbers. */
  lemma ItemIs(i: nat, v: Flag)
    requires i < 0x8000_0000
    ensures Item(i, v) == Dec(i) + "=" + (if v < 0x8000_0000 then Dec(v) else "-" + Dec(0x1_0000_0000 - v))
  {
  }

  function ItemTexts(flags: seq<Flag>): seq<string> {
    seq(|flags|, i requires 0 <= i < |flags| => Item(i, flags[i]))
  }

  /** What stands beside the flags that are set, among the first n. */
  function Picked<T>(flags: seq<Flag>, xs: seq<T>, n: nat): seq<T>
    requires n <= |flags| == |xs|
  {
    if n == 0 then []
    else if flags[n - 1] == 0 then Picked(flags, xs, n - 1)
    else Picked(flags, xs, n - 1) + [xs[n - 1]]
  }

  /** The items of the flags that are set. */
  function Items(flags: seq<Flag>): seq<string> {
    Picked(flags, ItemTexts(flags), |flags|)
  }

  lemma ItemAssigns(i: nat, v: Flag)
    requires i < INTS / 2
    ensures ';' !in Item(i, v) && Assignment(Item(i, v)) == Some((i as int, v))
  {
    var left, right := IntText(AsInt(i)), IntText(AsInt(v));
    IntTextChars(AsInt(i));
    IntTextChars(AsInt(v));
    FoundAfter(left, right, '=');
    SplitAfter(left, right, '=');
    AtoiOfIntText(AsInt(i));
    AtoiOfIntText(AsInt(v));
    FlagOfInt(v);
  }

  lemma {:induction false} FoundAfter(left: string, right: string, c: char)
    requires c !in left
    ensures StrChr(left + [c] + right, c) == Some(|left|)
  {
    if left != "" {
      assert (left + [c] + right)[1..] == left[1..] + [c] + right;
      FoundAfter(left[1..], right, c);
    }
  }

  lemma SplitAfter(left: string, right: string, c: char)
    ensures (left + [c] + right)[..|left|] == left && (left + [c] + right)[|left| + 1..] == right
  {
  }

  lemma {:induction false} IntTextChars(v: int)
    ensures ';' !in IntText(v) && '=' !in IntText(v)
  {
    DecIsDecimal(if v < 0 then -v else v);
  }

  /** The items have been printed, each with a semicolon after it; `text` is without the last one. */
  ghost predicate Printed(r: string, text: string, items: seq<string>) {
    && Fields(r, ';') == items + [""]
    && if items == [] then r == "" else r == text + [';'] && Fields(text, ';') == items
  }

  lemma PrintedItem(r: string, text: string, items: seq<string>, item: string)
    requires Printed(r, text, items) && ';' !in item
    ensures Printed(r + item + [';'], r + item, items + [item])
  {
    var ext := FieldsExtend(r, item, ';');
    FieldsSnoc(r + item, ';', ';');
    assert "" + item == item;
  }

  /** switch_channel_get_flag_string: the pieces of the text are the items of the flags that are set. */
  method GetFlagString(flags: array<Flag>) returns (r: string)
    requires flags.Length < INTS / 2
    ensures Fields(r, ';') == if Items(flags[..]) == [] then [""] else Items(flags[..])
  {
    r := "";
    ghost var text, items, all := "", [], flags[..];
    ghost var texts := ItemTexts(all);
    var i := 0;
    while i < flags.Length
      invariant i <= flags.Length && items == Picked(all, texts, i) && Printed(r, text, items)
    {
      if flags[i] != 0 {
        ItemAssigns(i, flags[i]);
        PrintedItem(r, text, items, Item(i, flags[i]));
        text, items := r + Item(i, flags[i]), items + [Item(i, flags[i])];
        r := r + Item(i, flags[i]) + [';'];
      }
      i := i + 1;
    }
    if r != "" && r[|r| - 1] == ';' {
      r := r[..|r| - 1];
      assert r == text;
    }
  }

  // ----- Round trip

  /** The first n flags, and zeros. */
  function Restored(flags: seq<Flag>, n: nat): seq<Flag> {
    seq(|flags|, i requires 0 <= i < |flags| => if i < n then flags[i] else 0)
  }

  lemma {:induction false} AssignSnoc(a: seq<Flag>, ws: seq<Option<Write>>, w: Option<Write>)
    ensures AssignAll(a, ws + [w]) == Assign(AssignAll(a, ws), w)
    ensures Strays(ws + [w]) == Strays(ws) + Stray(w)
    decreases |ws|
  {
    if ws == [] {
      assert ws + [w] == [w];
      assert AssignAll(a, [w]) == AssignAll(Assign(a, w), []);
      assert Strays([w]) == Stray(w) + Strays([]);
    } else {
      assert (ws + [w])[1..] == ws[1..] + [w];
      AssignSnoc(Assign(a, ws[0]), ws[1..], w);
      ConcatAssociates(Stray(ws[0]), Strays(ws[1..]), Stray(w));
    }
  }

  lemma RestoreOne(flags: seq<Flag>, n: nat)
    requires 0 < n <= |flags|
    ensures Restored(flags, n) == Assign(Restored(flags, n - 1), Some((n - 1, flags[n - 1])))
    ensures flags[n - 1] == 0 ==> Restored(flags, n) == Restored(flags, n - 1)
  {
  }

  lemma RestoreNext(flags: seq<Flag>, n: nat, a: seq<Flag>, ws: seq<Option<Write>>, w: Option<Write>)
    requires 0 < n <= |flags| && w == Some((n - 1, flags[n - 1]))
    requires Strays(ws) == [] && AssignAll(a, ws) == Restored(flags, n - 1)
    ensures Strays(ws + [w]) == [] && AssignAll(a, ws + [w]) == Restored(flags, n)
  {
    RestoreOne(flags, n);
    AssignSnoc(a, ws, w);
  }

  lemma RestoredAll(flags: seq<Flag>)
    ensures Restored(flags, |flags|) == flags
  {
  }

  /** Writing the flags that are set to their places restores the array. */
  lemma {:induction false} PickedRestore(flags: seq<Flag>, ws: seq<Option<Write>>, n: nat)
    requires n <= |flags| == |ws| && forall i :: 0 <= i < |flags| ==> ws[i] == Some((i, flags[i]))
    ensures Strays(Picked(flags, ws, n)) == []
    ensures AssignAll(Restored(flags, 0), Picked(flags, ws, n)) == Restored(flags, n)
  {
    if n > 0 {
      PickedRestore(flags, ws, n - 1);
      if flags[n - 1] == 0 {
        RestoreOne(flags, n);
      } else {
        RestoreNext(flags, n, Restored(flags, 0), Picked(flags, ws, n - 1), ws[n - 1]);
      }
    }
  }

  lemma AssignmentsSnoc(pieces: seq<string>, piece: string)
    ensures Assignments(pieces + [piece]) == Assignments(pieces) + [Assignment(piece)]
  {
  }

  lemma {:induction false} PickedAssignments(flags: seq<Flag>, texts: seq<string>, n: nat)
    requires n <= |flags| == |texts|
    ensures Assignments(Picked(flags, texts, n)) == Picked(flags, Assignments(texts), n)
  {
    if n > 0 {
      PickedAssignments(flags, texts, n - 1);
      if flags[n - 1] != 0 {
        AssignmentsSnoc(Picked(flags, texts, n - 1), texts[n - 1]);
      }
    }
  }

  lemma TextsAssign(flags: seq<Flag>, texts: seq<string>)
    requires |flags| < INTS / 2 && texts == ItemTexts(flags)
    ensures forall i :: 0 <= i < |flags| ==> Assignments(texts)[i] == Some((i, flags[i]))
  {
    forall i | 0 <= i < |flags|
      ensures Assignments(texts)[i] == Some((i, flags[i]))
    {
      ItemAssigns(i, flags[i]);
    }
  }

  /** The empty text asks for no write. */
  lemma NoItems(a: seq<Flag>)
    ensures Assignments([""]) == [None] && Strays([None]) == Strays([]) && AssignAll(a, [None]) == AssignAll(a, [])
  {
    assert Assignments([""]) == [Assignment("")] + Assignments([]);
    var none: Option<Write> := None;
    assert [none] == [] + [none];
    AssignSnoc(a, [], none);
  }

  /** The pieces that a flag array is printed as give the array back, and write nothing else. */
  lemma PiecesRestore(flags: seq<Flag>, pieces: seq<string>)
    requires |flags| < INTS / 2 && pieces == if Items(flags) == [] then [""] else Items(flags)
    ensures var ws := Assignments(pieces); Strays(ws) == [] && AssignAll(Restored(flags, 0), ws) == flags
  {
    var texts := ItemTexts(flags);
    TextsAssign(flags, texts);
    PickedRestore(flags, Assignments(texts), |flags|);
    PickedAssignments(flags, texts, |flags|);
    RestoredAll(flags);
    if Items(flags) == [] {
      NoItems(Restored(flags, 0));
    }
  }

  /** Printing a flag array and parsing the text into a zeroed array gives the flags back: all of
      them, also those of 2^31 and more, which are printed as negative numbers. */
  method RoundTrip(flags: array<Flag>) returns (back: array<Flag>, strays: seq<Write>)
    requires flags.Length < INTS / 2
    ensures fresh(back) && back[..] == flags[..] && strays == []
  {
    var text := GetFlagString(flags);
    back := new Flag[flags.Length](_ => 0);
    assert back[..] == Restored(flags[..], 0);
    PiecesRestore(flags[..], Fields(text, ';'));
    strays := ParseArray(text, back);
  }
}
