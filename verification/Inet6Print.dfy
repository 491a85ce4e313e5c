/** The printed form of an IPv6 address, and that parsing it gives the address back. */
module Inet6Print {
  import opened Common
  import opened Inet
  import opened InetForms

  function HexChar(d: nat, upper: bool): char
    requires d < 16
  {
    if d < 10 then ('0' as int + d) as char
    else if upper then ('A' as int + d - 10) as char
    else ('a' as int + d - 10) as char
  }

  /** Two bytes in network order as four hexadecimal digits. */
  function PrintGroup(high: Byte, low: Byte, upper: bool): string {
    [HexChar(high / 16, upper), HexChar(high % 16, upper), HexChar(low / 16, upper), HexChar(low % 16, upper)]
  }

  function GroupTexts(a: seq<Byte>, upper: bool): (ts: seq<string>)
    requires |a| % 2 == 0
    ensures |ts| == |a| / 2
  {
    if a == [] then []
    else GroupTexts(a[..|a| - 2], upper) + [PrintGroup(a[|a| - 2], a[|a| - 1], upper)]
  }

  /** The canonical full form. */
  function Print6(a: seq<Byte>, upper: bool): string
    requires |a| == ADDRESS_SIZE
  {
    Join(GroupTexts(a, upper))
  }

  lemma DigitOfHexChar(d: nat, upper: bool)
    requires d < 16
    ensures IsHex(HexChar(d, upper)) && Digit(HexChar(d, upper)) == d
  {
  }

  /** The digits are just those that are printed. */
  lemma HexIff(c: char)
    ensures IsHex(c) <==> exists d: nat, upper: bool :: d < 16 && c == HexChar(d, upper)
    ensures IsDec(c) <==> exists d: nat :: d < 10 && c == HexChar(d, false)
  {
    if IsHex(c) {
      assert c == HexChar(Digit(c), 'A' <= c <= 'F');
    }
    if IsDec(c) {
      assert c == HexChar(Digit(c), false);
    }
  }

  lemma ValOfFour(a: char, b: char, c: char, d: char)
    ensures Val(16, [a, b, c, d]) == ((Digit(a) * 16 + Digit(b)) * 16 + Digit(c)) * 16 + Digit(d)
  {
    assert [a, b, c, d] == [a, b, c] + [d] && [a, b, c] == [a, b] + [c] && [a, b] == [a] + [b] && [a] == [] + [a];
    ValSnoc(16, [a, b, c], d);
    ValSnoc(16, [a, b], c);
    ValSnoc(16, [a], b);
    ValSnoc(16, [], a);
  }

  lemma GroupIsRead(high: Byte, low: Byte, upper: bool)
    ensures var t := PrintGroup(high, low, upper); IsGroup(t) && GroupBytes(t) == [high, low]
  {
    DigitOfHexChar(high / 16, upper);
    DigitOfHexChar(high % 16, upper);
    DigitOfHexChar(low / 16, upper);
    DigitOfHexChar(low % 16, upper);
    var t := PrintGroup(high, low, upper);
    ValOfFour(t[0], t[1], t[2], t[3]);
    assert Val(16, t) == high * 256 + low;
  }

  lemma {:induction false} GroupsAreRead(a: seq<Byte>, upper: bool)
    requires |a| % 2 == 0
    ensures AllGroups(GroupTexts(a, upper)) && Bytes(GroupTexts(a, upper)) == a
  {
    if a != [] {
      var n := |a| - 2;
      GroupsAreRead(a[..n], upper);
      GroupIsRead(a[n], a[n + 1], upper);
      var ts := GroupTexts(a, upper);
      assert ts[..|ts| - 1] == GroupTexts(a[..n], upper);
      assert a == a[..n] + [a[n], a[n + 1]];
    }
  }

  /** Printing an address, in lower or upper case, and parsing the text gives it back. */
  lemma Print6RoundTrip(a: seq<Byte>, upper: bool)
    requires |a| == ADDRESS_SIZE
    ensures Parse6(Print6(a, upper)) == Some(a)
  {
    var ts := GroupTexts(a, upper);
    GroupsAreRead(a, upper);
    assert ts[..|ts| - 1] == GroupTexts(a[..|a| - 2], upper);
    GroupsAreRead(a[..|a| - 2], upper);
    GroupIsRead(a[|a| - 2], a[|a| - 1], upper);
    LastIsGroup(ts);
    FullForm(ts);
  }

  lemma LastIsGroup(ts: seq<string>)
    requires AllGroups(ts) && ts != []
    ensures IsTail(ts) && TailBytes(ts) == Bytes(ts)
  {
    assert AllGroups(ts[..|ts| - 1]);
  }
}
