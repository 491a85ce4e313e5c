/** The text side of the SQL pipeline: how queued statements are laid out in a batch, what a
    batch text means to the database, and which pieces of it the chunker submits. */
module SqlText {
  import opened Common

  /** A text with no NUL inside, that is, one a C string can hold. */
  predicate IsCString(s: string) {
    forall i :: 0 <= i < |s| ==> s[i] != '\0'
  }

  type CStr = s: string | IsCString(s) witness ""

  /** Position p is the newline of a statement terminator. */
  predicate IsCut(text: string, p: nat)
    requires p < |text|
  {
    0 < p && text[p] == '\n' && text[p - 1] == ';'
  }

  /** No statement terminator inside the statement. */
  predicate IsClean(s: string) {
    forall p :: 0 <= p < |s| ==> !IsCut(s, p)
  }

  predicate AllClean(stmts: seq<string>) {
    forall i :: 0 <= i < |stmts| ==> IsClean(stmts[i])
  }

  /** The batch text: every statement followed by its terminator. */
  function Render(stmts: seq<string>): string {
    if stmts == [] then "" else stmts[0] + ";\n" + Render(stmts[1..])
  }

  lemma {:induction false} RenderConcat(a: seq<string>, b: seq<string>)
    ensures Render(a + b) == Render(a) + Render(b)
  {
    if a == [] {
      assert a + b == b;
    } else {
      assert (a + b)[1..] == a[1..] + b;
      RenderConcat(a[1..], b);
    }
  }

  lemma {:induction false} RenderIsCString(stmts: seq<string>)
    requires forall s :: s in stmts ==> IsCString(s)
    ensures IsCString(Render(stmts))
  {
    if stmts != [] {
      assert stmts[0] in stmts && forall s :: s in stmts[1..] ==> s in stmts;
      RenderIsCString(stmts[1..]);
    }
  }

  lemma {:induction false} RenderLength(stmts: seq<string>)
    ensures |Render(stmts)| >= 2 * |stmts|
  {
    if stmts != [] {
      RenderLength(stmts[1..]);
    }
  }

  // ----- What a text means to the database

  /** The offset of the first terminator at or after i, or the end of the text. */
  function FirstTerminator(text: string, i: nat): (p: nat)
    requires i <= |text|
    ensures i <= p <= |text|
    ensures p < |text| ==> p + 1 < |text| && text[p] == ';' && text[p + 1] == '\n'
    ensures forall q :: i <= q < p ==> !(q + 1 < |text| && text[q] == ';' && text[q + 1] == '\n')
    decreases |text| - i
  {
    if i == |text| then i
    else if i + 1 < |text| && text[i] == ';' && text[i + 1] == '\n' then i
    else FirstTerminator(text, i + 1)
  }

  /** The statements a database executes when it is given a text: the text is read from the left
      up to each terminator, and an empty statement does nothing. */
  function Statements(text: string): seq<string>
    decreases |text|
  {
    if text == "" then []
    else
      var p := FirstTerminator(text, 0);
      (if p == 0 then [] else [text[..p]]) + (if p == |text| then [] else Statements(text[p + 2..]))
  }

  function NonEmpty(stmts: seq<string>): seq<string> {
    if stmts == [] then []
    else (if stmts[0] == "" then [] else [stmts[0]]) + NonEmpty(stmts[1..])
  }

  lemma {:induction false} NonEmptyConcat(a: seq<string>, b: seq<string>)
    ensures NonEmpty(a + b) == NonEmpty(a) + NonEmpty(b)
  {
    if a == [] {
      assert a + b == b;
    } else {
      assert (a + b)[1..] == a[1..] + b;
      NonEmptyConcat(a[1..], b);
    }
  }

  lemma NonEmptySingle(s: string)
    ensures NonEmpty([s]) == if s == "" then [] else [s]
  {
    assert [s][1..] == [];
    assert NonEmpty([]) == [];
  }

  /** What executing a list of texts one after the other does. */
  function Meaning(texts: seq<string>): seq<string> {
    if texts == [] then [] else Statements(texts[0]) + Meaning(texts[1..])
  }

  lemma {:induction false} MeaningConcat(a: seq<string>, b: seq<string>)
    ensures Meaning(a + b) == Meaning(a) + Meaning(b)
  {
    if a == [] {
      assert a + b == b;
    } else {
      assert (a + b)[1..] == a[1..] + b;
      MeaningConcat(a[1..], b);
    }
  }

  /** A clean statement in front of a terminator is read back whole. */
  lemma FirstTerminatorOfStatement(s: string, rest: string)
    requires IsClean(s)
    ensures FirstTerminator(s + ";\n" + rest, 0) == |s|
  {
    var text := s + ";\n" + rest;
    var p := FirstTerminator(text, 0);
    assert text[|s|] == ';' && text[|s| + 1] == '\n';
    assert forall q :: 0 <= q < |s| - 1 ==> text[q] == s[q] && !IsCut(s, q + 1);
  }

  lemma StatementsStep(s: string, rest: string)
    requires IsClean(s)
    ensures Statements(s + ";\n" + rest) == NonEmpty([s]) + Statements(rest)
  {
    FirstTerminatorOfStatement(s, rest);
    var text := s + ";\n" + rest;
    assert text[..|s|] == s;
    assert text[|s| + 2..] == rest;
    NonEmptySingle(s);
  }

  /** Reading a batch back gives exactly its statements, in order. */
  lemma {:induction false} StatementsOfRender(stmts: seq<string>)
    requires AllClean(stmts)
    ensures Statements(Render(stmts)) == NonEmpty(stmts)
  {
    if stmts != [] {
      StatementsOfRender(stmts[1..]);
      StatementsStep(stmts[0], Render(stmts[1..]));
    }
  }

  // ----- Which pieces the chunker submits

  /** The last cut at or below hi, or 0 when there is none. */
  function LastCut(text: string, hi: nat): (p: nat)
    requires hi < |text|
    ensures p <= hi
    ensures p > 0 ==> IsCut(text, p)
    ensures forall q :: p < q <= hi ==> !IsCut(text, q)
  {
    if hi == 0 || IsCut(text, hi) then hi else LastCut(text, hi - 1)
  }

  /** The pieces the chunking loop submits from a remaining text: it cuts at the last terminator
      that starts no later than chunk characters on, and stops when it finds none. */
  function Chunks(rest: string, chunk: nat): seq<string>
    requires chunk > 0
    decreases |rest|
  {
    if |rest| <= 1 then []
    else
      var hi := if chunk < |rest| - 1 then chunk else |rest| - 1;
      var p := LastCut(rest, hi);
      if p == 0 then [] else [rest[..p - 1]] + Chunks(rest[p + 1..], chunk)
  }

  /** The texts a call of the chunked executor submits while every execution succeeds. */
  function Submitted(text: string, chunk: nat): seq<string>
    requires chunk > 0
  {
    if |text| < chunk then [text] else Chunks(text, chunk)
  }

  // ----- The reference: greedy packing of whole statements

  /** The largest number of leading statements whose text without the last terminator is shorter
      than the chunk size. */
  function PackCount(stmts: seq<string>, room: int): (k: nat)
    ensures k <= |stmts|
    ensures k > 0 ==> |Render(stmts[..k])| <= room
    ensures k < |stmts| ==> |Render(stmts[..k + 1])| > room
    ensures k > 0 <==> stmts != [] && |stmts[0]| + 2 <= room
  {
    if stmts == [] || |stmts[0]| + 2 > room then
      assert stmts != [] ==> stmts[..1] == [stmts[0]] && Render(stmts[..1]) == stmts[0] + ";\n";
      0
    else
      var k := PackCount(stmts[1..], room - |stmts[0]| - 2);
      assert stmts[..1 + k] == [stmts[0]] + stmts[1..][..k];
      assert k + 1 < |stmts| ==> stmts[..k + 2] == [stmts[0]] + stmts[1..][..k + 1];
      1 + k
  }

  /** The greedy packing of whole statements into texts shorter than the chunk size. It stops at
      the first statement that does not fit on its own. */
  function Groups(stmts: seq<string>, chunk: nat): (groups: seq<seq<string>>)
    ensures forall i :: 0 <= i < |groups| ==> groups[i] != []
  {
    var k := PackCount(stmts, chunk + 1);
    if k == 0 then [] else [stmts[..k]] + Groups(stmts[k..], chunk)
  }

  /** A group as one text: the terminator of its last statement is left off. */
  function GroupText(group: seq<string>): (text: string)
    requires group != []
    ensures text + ";\n" == Render(group)
  {
    var last := |group| - 1;
    assert group == group[..last] + [group[last]];
    RenderConcat(group[..last], [group[last]]);
    Render(group[..last]) + group[last]
  }

  function GroupTexts(groups: seq<seq<string>>): seq<string>
    requires forall i :: 0 <= i < |groups| ==> groups[i] != []
  {
    if groups == [] then [] else [GroupText(groups[0])] + GroupTexts(groups[1..])
  }

  lemma FlattenRun<T>(stmts: seq<T>, k: nat, n: nat, groups: seq<seq<T>>)
    requires k + n <= |stmts| && Flatten(groups) == stmts[k..][..n]
    ensures Flatten([stmts[..k]] + groups) == stmts[..k + n]
  {
    assert ([stmts[..k]] + groups)[1..] == groups;
    assert stmts[..k + n] == stmts[..k] + stmts[k..][..n];
  }

  /** How many leading statements are short enough to be submitted. */
  function ShortPrefix(stmts: seq<string>, chunk: nat): (n: nat)
    ensures n <= |stmts|
    ensures forall i :: 0 <= i < n ==> |stmts[i]| < chunk
    ensures n < |stmts| ==> |stmts[n]| >= chunk
  {
    if stmts == [] || |stmts[0]| >= chunk then 0 else 1 + ShortPrefix(stmts[1..], chunk)
  }

  lemma {:induction false} GroupsAreRuns(stmts: seq<string>, chunk: nat)
    ensures Flatten(Groups(stmts, chunk)) == stmts[..ShortPrefix(stmts, chunk)]
    decreases |stmts|
  {
    var k := PackCount(stmts, chunk + 1);
    if k > 0 {
      GroupsAreRuns(stmts[k..], chunk);
      PackedAreShort(stmts, chunk, k);
      FlattenRun(stmts, k, ShortPrefix(stmts[k..], chunk), Groups(stmts[k..], chunk));
    }
  }

  lemma {:induction false} PackedAreShort(stmts: seq<string>, chunk: nat, k: nat)
    requires k <= |stmts| && (k == 0 || |Render(stmts[..k])| <= chunk + 1)
    ensures ShortPrefix(stmts, chunk) == k + ShortPrefix(stmts[k..], chunk)
  {
    if k > 0 {
      assert stmts[..k][1..] == stmts[1..][..k - 1];
      PackedAreShort(stmts[1..], chunk, k - 1);
      assert stmts[1..][k - 1..] == stmts[k..];
    }
  }

  /** Every cut of a batch is the end of one of its statements. */
  lemma {:induction false} CutIsBoundary(stmts: seq<string>, p: nat) returns (k: nat)
    requires AllClean(stmts) && p < |Render(stmts)| && IsCut(Render(stmts), p)
    ensures 0 < k <= |stmts| && p + 1 == |Render(stmts[..k])|
  {
    var s, rest := stmts[0], Render(stmts[1..]);
    var text := s + ";\n" + rest;
    assert stmts[..1] == [s] && Render(stmts[..1]) == s + ";\n";
    assert forall q :: 0 <= q < |s| ==> text[q] == s[q] && !IsCut(s, q);
    assert text[|s|] == ';' && text[|s| + 1] == '\n';
    assert p > |s| && p != |s| + 2;
    if p == |s| + 1 {
      k := 1;
    } else {
      var q := p - |s| - 2;
      assert rest[q] == text[p] && rest[q - 1] == text[p - 1];
      k := CutIsBoundary(stmts[1..], q);
      assert stmts[..k + 1] == [s] + stmts[1..][..k];
      k := k + 1;
    }
  }

  lemma BoundaryIsCut(stmts: seq<string>, k: nat)
    requires 0 < k <= |stmts|
    ensures |Render(stmts[..k])| >= 2 && |Render(stmts[..k])| <= |Render(stmts)|
    ensures IsCut(Render(stmts), |Render(stmts[..k])| - 1)
    ensures Render(stmts) == Render(stmts[..k]) + Render(stmts[k..])
  {
    assert stmts == stmts[..k] + stmts[k..];
    RenderConcat(stmts[..k], stmts[k..]);
    RenderLength(stmts[..k]);
    var t := GroupText(stmts[..k]);
    assert Render(stmts[..k]) == t + ";\n";
  }

  lemma RenderMonotone(stmts: seq<string>, i: nat, j: nat)
    requires i <= j <= |stmts|
    ensures |Render(stmts[..i])| <= |Render(stmts[..j])|
  {
    assert stmts[..j] == stmts[..i] + stmts[i..j];
    RenderConcat(stmts[..i], stmts[i..j]);
  }

  /** The last terminator within reach ends the largest run of statements that fits. */
  lemma LastCutOfBatch(stmts: seq<string>, chunk: nat)
    requires AllClean(stmts) && stmts != [] && chunk > 0
    ensures |Render(stmts)| >= 2
    ensures var k := PackCount(stmts, chunk + 1);
            var hi := if chunk < |Render(stmts)| - 1 then chunk else |Render(stmts)| - 1;
            LastCut(Render(stmts), hi) == if k == 0 then 0 else |Render(stmts[..k])| - 1
  {
    var text := Render(stmts);
    RenderLength(stmts);
    var k := PackCount(stmts, chunk + 1);
    var hi := if chunk < |text| - 1 then chunk else |text| - 1;
    var p := LastCut(text, hi);
    if k > 0 { BoundaryIsCut(stmts, k); }
    if p > 0 {
      var m := CutIsBoundary(stmts, p);
      if m > k {
        RenderMonotone(stmts, k + 1, m);
      } else {
        RenderMonotone(stmts, m, k);
      }
    }
  }

  lemma ChunksStep(rest: string, chunk: nat, p: nat, piece: string, tail: string)
    requires chunk > 0 && |rest| > 1 && p > 0
    requires p == LastCut(rest, if chunk < |rest| - 1 then chunk else |rest| - 1)
    requires rest[..p - 1] == piece && rest[p + 1..] == tail
    ensures Chunks(rest, chunk) == [piece] + Chunks(tail, chunk)
  {
  }

  lemma GroupsStep(stmts: seq<string>, chunk: nat, k: nat)
    requires 0 < k == PackCount(stmts, chunk + 1)
    ensures GroupTexts(Groups(stmts, chunk)) == [GroupText(stmts[..k])] + GroupTexts(Groups(stmts[k..], chunk))
  {
    assert Groups(stmts, chunk)[1..] == Groups(stmts[k..], chunk);
  }

  /** The text around the end of the k-th statement. */
  lemma SplitBatch(stmts: seq<string>, k: nat)
    requires 0 < k <= |stmts|
    ensures 2 <= |Render(stmts[..k])| <= |Render(stmts)|
    ensures Render(stmts)[..|Render(stmts[..k])| - 2] == GroupText(stmts[..k])
    ensures Render(stmts)[|Render(stmts[..k])|..] == Render(stmts[k..])
  {
    BoundaryIsCut(stmts, k);
    assert GroupText(stmts[..k]) + ";\n" == Render(stmts[..k]);
  }

  lemma NoChunks(rest: string, chunk: nat)
    requires chunk > 0 && |rest| > 1 && LastCut(rest, if chunk < |rest| - 1 then chunk else |rest| - 1) == 0
    ensures Chunks(rest, chunk) == []
  {
  }

  /** The first chunk, given the text of the batch and the largest group that fits. */
  lemma FirstChunk(stmts: seq<string>, chunk: nat, k: nat, text: string)
    requires chunk > 0 && 0 < k <= |stmts| && text == Render(stmts) && |text| > 1
    requires LastCut(text, if chunk < |text| - 1 then chunk else |text| - 1) == |Render(stmts[..k])| - 1
    ensures Chunks(text, chunk) == [GroupText(stmts[..k])] + Chunks(Render(stmts[k..]), chunk)
  {
    SplitBatch(stmts, k);
    ChunksStep(text, chunk, |Render(stmts[..k])| - 1, GroupText(stmts[..k]), Render(stmts[k..]));
  }

  /** On a batch of clean statements the chunking loop submits exactly the greedy packing. */
  lemma {:induction false} ChunksOfBatch(stmts: seq<string>, chunk: nat)
    requires AllClean(stmts) && chunk > 0
    ensures Chunks(Render(stmts), chunk) == GroupTexts(Groups(stmts, chunk))
    decreases |stmts|
  {
    if stmts != [] {
      var k := PackCount(stmts, chunk + 1);
      LastCutOfBatch(stmts, chunk);
      if k == 0 {
        NoChunks(Render(stmts), chunk);
      } else {
        FirstChunk(stmts, chunk, k, Render(stmts));
        ChunksOfBatch(stmts[k..], chunk);
        GroupsStep(stmts, chunk, k);
      }
    }
  }

  lemma {:induction false} MeaningOfGroups(groups: seq<seq<string>>)
    requires forall i :: 0 <= i < |groups| ==> groups[i] != [] && AllClean(groups[i])
    ensures Meaning(GroupTexts(groups)) == NonEmpty(Flatten(groups))
  {
    if groups != [] {
      MeaningOfGroupText(groups[0]);
      MeaningOfGroups(groups[1..]);
      NonEmptyConcat(groups[0], Flatten(groups[1..]));
    }
  }

  /** Leaving off the last terminator does not change what a text means. */
  lemma {:induction false} MeaningOfGroupText(group: seq<string>)
    requires group != [] && AllClean(group)
    ensures Statements(GroupText(group)) == NonEmpty(group)
  {
    var last := |group| - 1;
    assert GroupText(group) == Render(group[..last]) + group[last];
    StatementsOfOpenText(group[..last], group[last]);
    assert group == group[..last] + [group[last]];
    NonEmptyConcat(group[..last], [group[last]]);
  }

  lemma OpenStatement(tail: string)
    requires IsClean(tail)
    ensures Statements(tail) == NonEmpty([tail])
  {
    if tail != "" {
      var p := FirstTerminator(tail, 0);
      assert p + 1 < |tail| ==> !IsCut(tail, p + 1);
      assert p == |tail| && tail[..p] == tail;
      assert Statements(tail) == [tail] + [];
    }
  }

  lemma {:induction false} StatementsOfOpenText(stmts: seq<string>, tail: string)
    requires AllClean(stmts) && IsClean(tail)
    ensures Statements(Render(stmts) + tail) == NonEmpty(stmts) + NonEmpty([tail])
  {
    if stmts == [] {
      assert Render(stmts) + tail == tail;
      OpenStatement(tail);
    } else {
      var s, others := stmts[0], stmts[1..];
      ConcatAssociates(s + ";\n", Render(others), tail);
      assert NonEmpty(stmts) == NonEmpty([s]) + NonEmpty(others) by {
        assert stmts == [s] + others;
        NonEmptyConcat([s], others);
      }
      StatementsStep(s, Render(others) + tail);
      StatementsOfOpenText(others, tail);
      ConcatAssociates(NonEmpty([s]), NonEmpty(others), NonEmpty([tail]));
    }
  }

  lemma {:induction false} GroupTextsFit(stmts: seq<string>, chunk: nat)
    ensures forall i :: 0 <= i < |GroupTexts(Groups(stmts, chunk))| ==> |GroupTexts(Groups(stmts, chunk))[i]| < chunk
    decreases |stmts|
  {
    var k := PackCount(stmts, chunk + 1);
    if k > 0 {
      assert Groups(stmts, chunk)[0] == stmts[..k];
      assert Groups(stmts, chunk)[1..] == Groups(stmts[k..], chunk);
      GroupTextsFit(stmts[k..], chunk);
      assert |GroupText(stmts[..k])| + 2 == |Render(stmts[..k])|;
    }
  }

  lemma {:induction false} CleanGroups(stmts: seq<string>, chunk: nat)
    requires AllClean(stmts)
    ensures forall i :: 0 <= i < |Groups(stmts, chunk)| ==> AllClean(Groups(stmts, chunk)[i])
    decreases |stmts|
  {
    var k := PackCount(stmts, chunk + 1);
    if k > 0 {
      CleanGroups(stmts[k..], chunk);
    }
  }

  /** What the chunking loop executes of a batch: the statements before the first that is too long. */
  lemma ChunksMeaning(stmts: seq<string>, chunk: nat)
    requires AllClean(stmts) && chunk > 0
    ensures Meaning(Chunks(Render(stmts), chunk)) == NonEmpty(stmts[..ShortPrefix(stmts, chunk)])
    ensures forall i :: 0 <= i < |Chunks(Render(stmts), chunk)| ==> |Chunks(Render(stmts), chunk)[i]| < chunk
  {
    ChunksOfBatch(stmts, chunk);
    GroupsAreRuns(stmts, chunk);
    CleanGroups(stmts, chunk);
    MeaningOfGroups(Groups(stmts, chunk));
    GroupTextsFit(stmts, chunk);
  }

  /** Main result for one batch. A batch shorter than the chunk size is executed whole. A longer
      one is executed up to, and not including, its first statement of chunk characters or more:
      everything before it exactly once and in order, in texts shorter than the chunk size. */
  lemma SubmittedMeaning(stmts: seq<string>, chunk: nat)
    requires AllClean(stmts) && chunk > 0
    ensures Meaning(Submitted(Render(stmts), chunk))
         == NonEmpty(if |Render(stmts)| < chunk then stmts else stmts[..ShortPrefix(stmts, chunk)])
    ensures forall i :: 0 <= i < |Submitted(Render(stmts), chunk)| ==> |Submitted(Render(stmts), chunk)[i]| < chunk
  {
    if |Render(stmts)| < chunk {
      StatementsOfRender(stmts);
      assert Meaning([Render(stmts)]) == Statements(Render(stmts));
    } else {
      ChunksMeaning(stmts, chunk);
    }
  }

  lemma {:induction false} LongStatementMakesLongBatch(stmts: seq<string>, i: nat)
    requires i < |stmts|
    ensures |Render(stmts)| > |stmts[i]|
  {
    if i > 0 { LongStatementMakesLongBatch(stmts[1..], i - 1); }
  }

  lemma {:induction false} NonEmptyPrefixStrict(stmts: seq<string>, n: nat)
    requires n < |stmts| && stmts[n] != ""
    ensures |NonEmpty(stmts[..n])| < |NonEmpty(stmts)|
  {
    assert stmts == stmts[..n] + stmts[n..];
    NonEmptyConcat(stmts[..n], stmts[n..]);
  }

  /** The chunker preserves the meaning of a batch exactly when no statement has chunk characters
      or more. */
  lemma ChunkingPreservesMeaningIff(stmts: seq<string>, chunk: nat)
    requires AllClean(stmts) && chunk > 0
    ensures Meaning(Submitted(Render(stmts), chunk)) == Statements(Render(stmts))
       <==> forall i :: 0 <= i < |stmts| ==> |stmts[i]| < chunk
  {
    SubmittedMeaning(stmts, chunk);
    StatementsOfRender(stmts);
    var n := ShortPrefix(stmts, chunk);
    if n == |stmts| {
      assert stmts[..n] == stmts;
    } else {
      LongStatementMakesLongBatch(stmts, n);
      NonEmptyPrefixStrict(stmts, n);
    }
  }

  // ----- Any text

  /** Every text is a batch of clean statements and a clean tail without a terminator. */
  function Parts(text: string): (parts: (seq<string>, string))
    ensures AllClean(parts.0) && IsClean(parts.1)
    decreases |text|
  {
    var p := FirstTerminator(text, 0);
    if p == |text| then
      assert forall q :: 0 < q < |text| ==> !(text[q - 1] == ';' && text[q] == '\n');
      ([], text)
    else
      var rest := Parts(text[p + 2..]);
      assert forall q :: 0 < q < p ==> !(text[q - 1] == ';' && text[q] == '\n');
      ([text[..p]] + rest.0, rest.1)
  }

  lemma SplitAtTerminator(text: string, p: nat)
    requires p + 1 < |text| && text[p] == ';' && text[p + 1] == '\n'
    ensures text == text[..p] + ";\n" + text[p + 2..]
  {
  }

  lemma RenderFirst(s: string, others: seq<string>)
    ensures Render([s] + others) == s + ";\n" + Render(others)
  {
    assert ([s] + others)[1..] == others;
  }

  lemma {:induction false} PartsMakeText(text: string)
    ensures Render(Parts(text).0) + Parts(text).1 == text
    decreases |text|
  {
    var p := FirstTerminator(text, 0);
    if p < |text| {
      var s, rest := text[..p], Parts(text[p + 2..]);
      PartsMakeText(text[p + 2..]);
      RenderFirst(s, rest.0);
      ConcatAssociates(s + ";\n", Render(rest.0), rest.1);
      SplitAtTerminator(text, p);
    }
  }

  lemma PartsStep(s: string, rest: string)
    requires IsClean(s)
    ensures Parts(s + ";\n" + rest) == ([s] + Parts(rest).0, Parts(rest).1)
  {
    FirstTerminatorOfStatement(s, rest);
    var text := s + ";\n" + rest;
    assert text[..|s|] == s && text[|s| + 2..] == rest;
  }

  /** There is only one way to see a text like that. */
  lemma {:induction false} PartsAreUnique(stmts: seq<string>, tail: string)
    requires AllClean(stmts) && IsClean(tail)
    ensures Parts(Render(stmts) + tail) == (stmts, tail)
  {
    if stmts == [] {
      assert Render(stmts) + tail == tail;
      var p := FirstTerminator(tail, 0);
      assert p + 1 < |tail| ==> !IsCut(tail, p + 1);
    } else {
      var s, others := stmts[0], stmts[1..];
      ConcatAssociates(s + ";\n", Render(others), tail);
      PartsStep(s, Render(others) + tail);
      PartsAreUnique(others, tail);
      assert stmts == [s] + others;
    }
  }

  /** A clean tail behind a terminator holds no cut. */
  lemma CutsBefore(r: string, tail: string, q: nat)
    requires (r == "" || r[|r| - 1] == '\n') && IsClean(tail) && q < |r| + |tail|
    ensures IsCut(r + tail, q) <==> q < |r| && IsCut(r, q)
  {
    if q > |r| {
      assert !IsCut(tail, q - |r|);
    }
  }

  lemma LastCutBefore(r: string, tail: string, hi: nat)
    requires (r == "" || r[|r| - 1] == '\n') && IsClean(tail) && hi < |r| + |tail|
    ensures LastCut(r + tail, hi) == if r == "" then 0 else LastCut(r, if hi < |r| then hi else |r| - 1)
  {
    var text := r + tail;
    var p := LastCut(text, hi);
    forall q | 0 <= q < |text|
      ensures IsCut(text, q) <==> q < |r| && IsCut(r, q)
    {
      CutsBefore(r, tail, q);
    }
  }

  lemma SliceBefore(r: string, tail: string, p: nat)
    requires 0 < p < |r|
    ensures (r + tail)[..p - 1] == r[..p - 1] && (r + tail)[p + 1..] == r[p + 1..] + tail
  {
  }

  /** The chunking loop never submits such a tail. */
  lemma {:induction false} TailIsDropped(r: string, tail: string, chunk: nat)
    requires (r == "" || r[|r| - 1] == '\n') && IsClean(tail) && chunk > 0
    ensures Chunks(r + tail, chunk) == Chunks(r, chunk)
    decreases |r|
  {
    var text := r + tail;
    if |text| > 1 {
      var hi := if chunk < |text| - 1 then chunk else |text| - 1;
      LastCutBefore(r, tail, hi);
      var p := LastCut(text, hi);
      if p > 0 {
        SliceBefore(r, tail, p);
        ChunksStep(text, chunk, p, r[..p - 1], r[p + 1..] + tail);
        ChunksStep(r, chunk, p, r[..p - 1], r[p + 1..]);
        TailIsDropped(r[p + 1..], tail, chunk);
      } else {
        NoChunks(text, chunk);
        if |r| > 1 {
          NoChunks(r, chunk);
        }
      }
    }
  }

  lemma RenderEnds(stmts: seq<string>)
    ensures Render(stmts) == "" || Render(stmts)[|Render(stmts)| - 1] == '\n'
  {
    if stmts != [] {
      assert GroupText(stmts) + ";\n" == Render(stmts);
    }
  }

  /** Main result for any text. One below the chunk size is executed whole. Of a longer one the statements
      before the first that is too long are executed, and what follows the last terminator never is. */
  lemma AnyTextMeaning(text: string, chunk: nat)
    requires chunk > 0
    ensures var stmts := Parts(text).0;
            Meaning(Submitted(text, chunk)) ==
            if |text| < chunk then Statements(text) else NonEmpty(stmts[..ShortPrefix(stmts, chunk)])
  {
    if |text| < chunk {
      assert Meaning([text]) == Statements(text) + Meaning([]);
    } else {
      var stmts, tail := Parts(text).0, Parts(text).1;
      PartsMakeText(text);
      RenderEnds(stmts);
      TailIsDropped(Render(stmts), tail, chunk);
      ChunksMeaning(stmts, chunk);
    }
  }

  /** For every text: the executor keeps its meaning exactly if it is below the chunk size, or if all its
      statements are and it ends with a terminator. */
  lemma ExecutorKeepsMeaningIff(text: string, chunk: nat)
    requires chunk > 0
    ensures var stmts, tail := Parts(text).0, Parts(text).1;
            Meaning(Submitted(text, chunk)) == Statements(text) <==>
            |text| < chunk || (tail == "" && forall i :: 0 <= i < |stmts| ==> |stmts[i]| < chunk)
  {
    var stmts, tail := Parts(text).0, Parts(text).1;
    var n := ShortPrefix(stmts, chunk);
    AnyTextMeaning(text, chunk);
    PartsMakeText(text);
    StatementsOfOpenText(stmts, tail);
    NonEmptySingle(tail);
    if n == |stmts| {
      assert stmts[..n] == stmts;
    } else {
      NonEmptyPrefixStrict(stmts, n);
    }
  }
}
