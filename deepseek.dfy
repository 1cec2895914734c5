/** The DeepSeek client: the scanner that pulls ```file:<path> blocks out of
    a model reply, and the decision logic of one task run (argument checks,
    the missing-key answer, endpoint and request body, and how the reply or
    the failure becomes the answer of a run). The HTTP exchange is an input. */
module DeepSeek {
  import opened Wrappers
  import opened Json
  import opened Text

  /** One file the model proposes: where, relative to the workspace, and what. */
  datatype GeneratedFile = GeneratedFile(path: string, content: string)

  // ---- the block scanner: /```file:(.+?)\n([\s\S]*?)```/g ---------------

  const OPENER: string := "```file:"
  const FENCE: string := "```"

  /** The first line terminator at or after `from`, or the end of `s`:
      where `.+` has to stop. */
  function HeaderEnd(s: string, from: nat): (j: nat)
    requires from <= |s|
    ensures from <= j <= |s|
    decreases |s| - from
  {
    if from == |s| || IsLineTerminator(s[from]) then from else HeaderEnd(s, from + 1)
  }

  /** `HeaderEnd` stops at the first line terminator and nowhere else. */
  lemma {:induction false} HeaderEndStops(s: string, from: nat)
    requires from <= |s|
    ensures forall k :: from <= k < HeaderEnd(s, from) ==> !IsLineTerminator(s[k])
    ensures HeaderEnd(s, from) < |s| ==> IsLineTerminator(s[HeaderEnd(s, from)])
    decreases |s| - from
  {
    if from < |s| && !IsLineTerminator(s[from]) {
      HeaderEndStops(s, from + 1);
    }
  }

  /** A fence "```" at `m`, character by character. */
  predicate FenceAt(s: string, m: nat) {
    m + 3 <= |s| && s[m] == '`' && s[m + 1] == '`' && s[m + 2] == '`'
  }

  lemma FenceAtOccurs(s: string, m: nat)
    ensures FenceAt(s, m) <==> OccursAt(s, FENCE, m)
  {
    if FenceAt(s, m) {
      assert s[m..m + 3] == FENCE;
    }
    if OccursAt(s, FENCE, m) {
      assert s[m..m + 3][0] == s[m] && s[m..m + 3][1] == s[m + 1] && s[m..m + 3][2] == s[m + 2];
    }
  }

  /** The first closing fence at or after `from`: where `[\s\S]*?` ends. */
  function FenceFrom(s: string, from: nat): (r: Option<nat>)
    ensures r.Some? ==> from <= r.value && r.value + |FENCE| <= |s|
    decreases |s| - from
  {
    if from + |FENCE| > |s| then None
    else if FenceAt(s, from) then Some(from)
    else FenceFrom(s, from + 1)
  }

  /** `FenceFrom` finds the leftmost fence. */
  lemma {:induction false} FenceFromFirst(s: string, from: nat)
    ensures FenceFrom(s, from).Some? ==> FenceAt(s, FenceFrom(s, from).value)
    ensures FenceFrom(s, from).Some? ==> forall m :: from <= m < FenceFrom(s, from).value ==> !FenceAt(s, m)
    ensures FenceFrom(s, from).None? ==> forall m :: from <= m ==> !FenceAt(s, m)
    decreases |s| - from
  {
    if from + |FENCE| <= |s| && !FenceAt(s, from) {
      FenceFromFirst(s, from + 1);
    }
  }

  /** The opener "```file:" at `i`, character by character. */
  predicate OpenerAt(s: string, i: nat) {
    && i + 8 <= |s|
    && s[i] == '`' && s[i + 1] == '`' && s[i + 2] == '`'
    && s[i + 3] == 'f' && s[i + 4] == 'i' && s[i + 5] == 'l' && s[i + 6] == 'e' && s[i + 7] == ':'
  }

  /** Where one match lies: the opener at `start`, the header up to the
      newline at `headerEnd`, the content up to the fence at `close`. */
  datatype Block = Block(start: nat, headerEnd: nat, close: nat)

  /** The match of the pattern that begins at `i`, if there is one. The lazy
      header cannot cross a line terminator, so it ends at the first one,
      which must be "\n" and must leave at least one header character; the
      lazy content then ends at the first fence after that newline. */
  function MatchAt(s: string, i: nat): (r: Option<Block>)
    ensures r.Some? ==> r.value.start == i && OpenerAt(s, i)
    ensures r.Some? ==> i + |OPENER| < r.value.headerEnd < r.value.close && r.value.close + |FENCE| <= |s|
  {
    if !OpenerAt(s, i) then None
    else
      var j := HeaderEnd(s, i + |OPENER|);
      if j == i + |OPENER| || j == |s| || s[j] != '\n' then None
      else
        match FenceFrom(s, j + 1)
        case None => None
        case Some(c) => Some(Block(i, j, c))
  }

  /** `regex.exec(s)` with `lastIndex == from`: the leftmost match at or after `from`. */
  function NextMatch(s: string, from: nat): (r: Option<Block>)
    ensures r.Some? ==> from <= r.value.start && r.value.start + |OPENER| < r.value.headerEnd < r.value.close
    ensures r.Some? ==> r.value.close + |FENCE| <= |s|
    decreases |s| - from
  {
    if from >= |s| then None
    else if MatchAt(s, from).Some? then MatchAt(s, from)
    else NextMatch(s, from + 1)
  }

  /** `NextMatch` stops at a match of the pattern. */
  lemma {:induction false} NextMatchFound(s: string, from: nat)
    ensures NextMatch(s, from).Some? ==> MatchAt(s, NextMatch(s, from).value.start) == NextMatch(s, from)
    decreases |s| - from
  {
    if from < |s| && MatchAt(s, from).None? {
      NextMatchFound(s, from + 1);
    }
  }

  /** `NextMatch` finds the leftmost match: no match starts before the one it
      stops at, and none at all when it finds nothing. */
  lemma {:induction false} NextMatchIsLeftmost(s: string, from: nat)
    ensures NextMatch(s, from).Some? ==> forall k :: from <= k < NextMatch(s, from).value.start ==> MatchAt(s, k).None?
    ensures NextMatch(s, from).None? ==> forall k :: from <= k ==> MatchAt(s, k).None?
    decreases |s| - from
  {
    if from < |s| && MatchAt(s, from).None? {
      NextMatchIsLeftmost(s, from + 1);
      forall k | from <= k && (NextMatch(s, from).None? || k < NextMatch(s, from).value.start)
        ensures MatchAt(s, k).None?
      {
        if k == from {
        } else {
          assert from + 1 <= k;
        }
      }
    }
  }


  /** The successive matches of the global regular expression from `from`:
      each starts where the previous one's closing fence ended. */
  function Blocks(s: string, from: nat): (bs: seq<Block>)
    ensures forall k :: 0 <= k < |bs| ==> from <= bs[k].start && Spans(s, bs[k])
    decreases |s| - from
  {
    match NextMatch(s, from)
    case None => []
    case Some(b) =>
      var rest := Blocks(s, b.close + |FENCE|);
      var bs := [b] + rest;
      assert forall k :: 0 < k < |bs| ==> bs[k] == rest[k - 1];
      bs
  }

  /** The matches do not overlap: each starts after the previous one's
      closing fence. */
  lemma {:induction false} BlocksInOrder(s: string, from: nat)
    ensures var bs := Blocks(s, from);
            forall k, l :: 0 <= k < l < |bs| ==> bs[k].close + |FENCE| <= bs[l].start
    decreases |s| - from
  {
    BlocksStep(s, from);
    if NextMatch(s, from).Some? {
      var b := NextMatch(s, from).value;
      var rest := Blocks(s, b.close + |FENCE|);
      BlocksInOrder(s, b.close + |FENCE|);
      var bs := [b] + rest;
      ConsIndex(b, rest);
    }
  }

  /** `BlocksInOrder` for two given matches. */
  lemma BlocksInOrderAt(s: string, from: nat, k: nat, l: nat)
    requires k < l < |Blocks(s, from)|
    ensures Blocks(s, from)[k].close + |FENCE| <= Blocks(s, from)[l].start
  {
    BlocksInOrder(s, from);
  }

  /** The block lies inside `s` with its parts in order. */
  predicate Spans(s: string, b: Block) {
    b.start + |OPENER| < b.headerEnd < b.close && b.close + |FENCE| <= |s|
  }

  /** The `{ path, content }` object built from one match. */
  function FileOf(s: string, b: Block): GeneratedFile
    requires Spans(s, b)
  {
    GeneratedFile(Trim(s[b.start + |OPENER|..b.headerEnd]), s[b.headerEnd + 1..b.close])
  }

  /** The files built from a run of blocks, one each, in order. */
  function FilesOf(s: string, bs: seq<Block>): (files: seq<GeneratedFile>)
    requires forall k :: 0 <= k < |bs| ==> Spans(s, bs[k])
    ensures |files| == |bs|
  {
    if bs == [] then [] else [FileOf(s, bs[0])] + FilesOf(s, bs[1..])
  }

  /** The files of the matches from `from` on. */
  function FilesFrom(s: string, from: nat): seq<GeneratedFile> {
    FilesOf(s, Blocks(s, from))
  }

  /** One step of the match loop: the file of the next match, then the rest. */
  lemma FilesFromStep(s: string, from: nat, b: Block)
    requires NextMatch(s, from) == Some(b)
    ensures Spans(s, b) && FilesFrom(s, from) == [FileOf(s, b)] + FilesFrom(s, b.close + |FENCE|)
  {
    BlocksStep(s, from);
    ConsTail(b, Blocks(s, b.close + |FENCE|));
  }

  /** No match from `from` on: no files. */
  lemma FilesFromNone(s: string, from: nat)
    requires NextMatch(s, from).None?
    ensures FilesFrom(s, from) == []
  {
    BlocksStep(s, from);
  }

  /** The elements after the head of `[x] + ys` are those of `ys`. */
  lemma ConsIndex<T>(x: T, ys: seq<T>)
    ensures forall k :: 0 < k < |[x] + ys| ==> ([x] + ys)[k] == ys[k - 1]
  {
  }

  lemma ConsTail<T>(x: T, ys: seq<T>)
    ensures ([x] + ys)[1..] == ys
  {
  }

  lemma AppendNil<T>(xs: seq<T>)
    ensures xs + [] == xs
  {
  }

  /** The two halves of a concatenation, read back by slicing. */
  lemma Halves<T>(xs: seq<T>, ys: seq<T>)
    ensures (xs + ys)[..|xs|] == xs && (xs + ys)[|xs|..] == ys
  {
  }

  /** Moving one element from the front of a tail to the end of the prefix. */
  lemma ConsShift<T>(xs: seq<T>, x: T, ys: seq<T>)
    ensures xs + ([x] + ys) == (xs + [x]) + ys
  {
  }

  /** What `parseGeneratedFiles` returns: a file per match of the global expression. */
  function ParsedFiles(s: string): seq<GeneratedFile> {
    FilesFrom(s, 0)
  }

  /** The k-th file is built from the k-th block. */
  lemma {:induction false} FilesOfBlocks(s: string, bs: seq<Block>)
    requires forall k :: 0 <= k < |bs| ==> Spans(s, bs[k])
    ensures forall k :: 0 <= k < |bs| ==> FilesOf(s, bs)[k] == FileOf(s, bs[k])
  {
    if bs != [] {
      FilesOfBlocks(s, bs[1..]);
      forall k | 0 < k < |bs| ensures FilesOf(s, bs)[k] == FileOf(s, bs[k]) {
        assert FilesOf(s, bs)[k] == FilesOf(s, bs[1..])[k - 1];
        assert bs[1..][k - 1] == bs[k];
      }
    }
  }

  /** Every block found is a match of the pattern where it starts. */
  lemma {:induction false} BlocksAreMatches(s: string, from: nat)
    ensures forall k :: 0 <= k < |Blocks(s, from)| ==> MatchAt(s, Blocks(s, from)[k].start) == Some(Blocks(s, from)[k])
    decreases |s| - from
  {
    BlocksStep(s, from);
    if NextMatch(s, from).Some? {
      var b := NextMatch(s, from).value;
      var rest := Blocks(s, b.close + |FENCE|);
      NextMatchFound(s, from);
      BlocksAreMatches(s, b.close + |FENCE|);
      var bs := [b] + rest;
      ConsIndex(b, rest);
    }
  }

  /** A match at `from` is the next match from `from`. */
  lemma NextMatchHere(s: string, from: nat)
    requires from < |s| && MatchAt(s, from).Some?
    ensures NextMatch(s, from) == MatchAt(s, from)
  {
  }

  /** There is no match from the end of the string on. */
  lemma NextMatchAtEnd(s: string, from: nat)
    requires |s| <= from
    ensures NextMatch(s, from).None?
  {
  }

  /** One step of the global scan: the first match, then the blocks after its fence. */
  lemma BlocksStep(s: string, from: nat)
    ensures NextMatch(s, from).None? ==> Blocks(s, from) == []
    ensures NextMatch(s, from).Some? ==>
              Blocks(s, from) == [NextMatch(s, from).value] + Blocks(s, NextMatch(s, from).value.close + |FENCE|)
  {
  }

  /** One `regex.exec` call: scans forward from `lastIndex` for the first
      place where the pattern matches. */
  method Exec(s: string, lastIndex: nat) returns (m: Option<Block>)
    ensures m == NextMatch(s, lastIndex)
  {
    var i := lastIndex;
    while i < |s|
      invariant lastIndex <= i
      invariant NextMatch(s, lastIndex) == NextMatch(s, i)
      decreases |s| - i
    {
      var here := MatchAt(s, i);
      if here.Some? {
        return here;
      }
      i := i + 1;
    }
    return None;
  }

  /** The `exec` loop as it runs: `files` found so far, `from` the
      `lastIndex` of the expression. */
  function Scan(s: string, files: seq<GeneratedFile>, from: nat): seq<GeneratedFile>
    decreases |s| - from
  {
    match NextMatch(s, from)
    case None => files
    case Some(b) => Scan(s, files + [FileOf(s, b)], b.close + |FENCE|)
  }

  /** The loop adds the files of the remaining matches to what it has. */
  lemma {:induction false} ScanAppends(s: string, files: seq<GeneratedFile>, from: nat)
    ensures Scan(s, files, from) == files + FilesFrom(s, from)
    decreases |s| - from
  {
    match NextMatch(s, from)
    case None =>
      FilesFromNone(s, from);
      assert files + [] == files;
    case Some(b) =>
      ScanAppends(s, files + [FileOf(s, b)], b.close + |FENCE|);
      FilesFromStep(s, from, b);
      ConsShift(files, FileOf(s, b), FilesFrom(s, b.close + |FENCE|));
  }

  /** `parseGeneratedFiles(content)`: runs the global expression to exhaustion. */
  method ParseGeneratedFiles(content: string) returns (files: seq<GeneratedFile>)
    ensures files == ParsedFiles(content)
  {
    files := [];
    var lastIndex := 0;
    ScanAppends(content, files, lastIndex);
    while true
      invariant lastIndex <= |content|
      invariant Scan(content, files, lastIndex) == ParsedFiles(content)
      decreases |content| - lastIndex
    {
      var m := Exec(content, lastIndex);
      if m.None? {
        return;
      }
      var b := m.value;
      files := files + [FileOf(content, b)];
      lastIndex := b.close + |FENCE|;
    }
  }

  /** Without an opener anywhere, nothing is extracted. */
  lemma NoOpenerNoFiles(s: string)
    requires !Contains(s, OPENER)
    ensures ParsedFiles(s) == []
  {
    NextMatchFound(s, 0);
    if NextMatch(s, 0).Some? {
      OpenerAtOccurs(s, NextMatch(s, 0).value.start);
    }
  }

  lemma OpenerAtOccurs(s: string, i: nat)
    ensures OpenerAt(s, i) <==> OccursAt(s, OPENER, i)
  {
    if OpenerAt(s, i) {
      assert s[i..i + 8] == OPENER;
    }
    if OccursAt(s, OPENER, i) {
      var w := s[i..i + 8];
      assert w[0] == s[i] && w[1] == s[i + 1] && w[2] == s[i + 2] && w[3] == s[i + 3];
      assert w[4] == s[i + 4] && w[5] == s[i + 5] && w[6] == s[i + 6] && w[7] == s[i + 7];
    }
  }

  /** Every match has an opener, then a header of at least one character
      with no line terminator, ended by "\n", whose trim is the path. */
  lemma MatchHeader(s: string, b: Block)
    requires MatchAt(s, b.start) == Some(b)
    ensures OccursAt(s, OPENER, b.start) && s[b.headerEnd] == '\n'
    ensures var header := s[b.start + |OPENER|..b.headerEnd];
            header != "" && (forall k :: 0 <= k < |header| ==> !IsLineTerminator(header[k]))
            && FileOf(s, b).path == Trim(header)
  {
    OpenerAtOccurs(s, b.start);
    HeaderEndStops(s, b.start + |OPENER|);
    var header := s[b.start + |OPENER|..b.headerEnd];
    forall k | 0 <= k < |header| ensures !IsLineTerminator(header[k]) {
      assert header[k] == s[b.start + |OPENER| + k];
    }
  }

  /** The content of every match is followed by the closing fence and holds
      no fence itself. */
  lemma MatchContent(s: string, b: Block)
    requires MatchAt(s, b.start) == Some(b)
    ensures OccursAt(s, FENCE, b.close)
    ensures FileOf(s, b).content == s[b.headerEnd + 1..b.close]
    ensures !Contains(FileOf(s, b).content, FENCE)
  {
    FenceFromFirst(s, b.headerEnd + 1);
    FenceAtOccurs(s, b.close);
    var c := s[b.headerEnd + 1..b.close];
    forall m | 0 <= m <= |c| ensures !OccursAt(c, FENCE, m) {
      FenceAtOccurs(c, m);
      FenceInSlice(s, b.headerEnd + 1, b.close, m);
    }
  }

  /** The k-th file `parseGeneratedFiles` returns, read off the k-th match:
      the match starts after the previous one's closing fence with the
      opener, its path is the trim of the header line ended by "\n", and its
      content runs up to the closing fence and holds no fence. */
  lemma ParsedFileAt(s: string, k: nat)
    requires k < |ParsedFiles(s)|
    ensures k < |Blocks(s, 0)|
    ensures var b := Blocks(s, 0)[k];
            && OccursAt(s, OPENER, b.start) && s[b.headerEnd] == '\n' && OccursAt(s, FENCE, b.close)
            && (0 < k ==> Blocks(s, 0)[k - 1].close + |FENCE| <= b.start)
            && ParsedFiles(s)[k].path == Trim(s[b.start + |OPENER|..b.headerEnd])
            && ParsedFiles(s)[k].content == s[b.headerEnd + 1..b.close]
            && !Contains(ParsedFiles(s)[k].content, FENCE)
  {
    var bs := Blocks(s, 0);
    assert ParsedFiles(s)[k] == FileOf(s, bs[k]) by { FilesOfBlocks(s, bs); }
    assert MatchAt(s, bs[k].start) == Some(bs[k]) by { BlocksAreMatches(s, 0); }
    if 0 < k {
      BlocksInOrderAt(s, 0, k - 1, k);
    }
    MatchHeader(s, bs[k]);
    MatchContent(s, bs[k]);
  }

  /** A fence inside a slice is a fence of the whole string. */
  lemma FenceInSlice(s: string, lo: nat, hi: nat, m: nat)
    requires lo <= hi <= |s|
    ensures FenceAt(s[lo..hi], m) ==> FenceAt(s, lo + m)
  {
    if FenceAt(s[lo..hi], m) {
      var c := s[lo..hi];
      assert c[m] == s[lo + m] && c[m + 1] == s[lo + m + 1] && c[m + 2] == s[lo + m + 2];
    }
  }

  /** A reply holding exactly one block whose content has no fence and does
      not end in a backtick yields exactly that file. */
  lemma SingleBlock(p: string, c: string)
    requires p != [] && forall k :: 0 <= k < |p| ==> !IsLineTerminator(p[k])
    requires !Contains(c, FENCE) && (c == [] || c[|c| - 1] != '`')
    ensures ParsedFiles(OPENER + p + "\n" + c + FENCE) == [GeneratedFile(Trim(p), c)]
  {
    SingleBlockLayout(p, c);
    SingleMatchIn(OPENER + p + "\n" + c + FENCE, p, c);
    SingleBlockIn(OPENER + p + "\n" + c + FENCE, p, c);
  }

  /** `SingleBlock` for a reply laid out as opener, header, "\n", content, fence. */
  lemma SingleBlockIn(s: string, p: string, c: string)
    requires |s| == |OPENER| + |p| + 1 + |c| + |FENCE|
    requires MatchAt(s, 0) == Some(Block(0, |OPENER| + |p|, |OPENER| + |p| + 1 + |c|))
    requires s[|OPENER|..|OPENER| + |p|] == p && s[|OPENER| + |p| + 1..|OPENER| + |p| + 1 + |c|] == c
    ensures ParsedFiles(s) == [GeneratedFile(Trim(p), c)]
  {
    var b := Block(0, |OPENER| + |p|, |OPENER| + |p| + 1 + |c|);
    FileOfParts(s, b, p, c);
    NextMatchHere(s, 0);
    OnlyMatch(s, b);
  }

  /** A first match whose fence ends the string is the only one. */
  lemma OnlyMatch(s: string, b: Block)
    requires NextMatch(s, 0) == Some(b) && b.close + |FENCE| == |s|
    ensures ParsedFiles(s) == [FileOf(s, b)]
  {
    calc {
      ParsedFiles(s);
      FilesFrom(s, 0);
      { FilesFromStep(s, 0, b); }
      [FileOf(s, b)] + FilesFrom(s, |s|);
      { NextMatchAtEnd(s, |s|); FilesFromNone(s, |s|); }
      [FileOf(s, b)] + [];
      { AppendNil([FileOf(s, b)]); }
      [FileOf(s, b)];
    }
  }


  /** The file of a block whose header is `p` and whose content is `c`. */
  lemma FileOfParts(s: string, b: Block, p: string, c: string)
    requires Spans(s, b)
    requires s[b.start + |OPENER|..b.headerEnd] == p && s[b.headerEnd + 1..b.close] == c
    ensures FileOf(s, b) == GeneratedFile(Trim(p), c)
  {
  }

  /** The block of such a reply is the match at 0. */
  lemma SingleMatchIn(s: string, p: string, c: string)
    requires p != [] && forall k :: 0 <= k < |p| ==> !IsLineTerminator(p[k])
    requires !Contains(c, FENCE) && (c == [] || c[|c| - 1] != '`')
    requires |s| == |OPENER| + |p| + 1 + |c| + |FENCE|
    requires s[..|OPENER|] == OPENER && s[|OPENER|..|OPENER| + |p|] == p && s[|OPENER| + |p|] == '\n'
    requires s[|OPENER| + |p| + 1..|OPENER| + |p| + 1 + |c|] == c && s[|OPENER| + |p| + 1 + |c|..] == FENCE
    ensures MatchAt(s, 0) == Some(Block(0, |OPENER| + |p|, |OPENER| + |p| + 1 + |c|))
  {
    var j := |OPENER| + |p|;
    assert OpenerAt(s, 0) by {
      assert s[..|OPENER|][0] == s[0] && s[..|OPENER|][1] == s[1] && s[..|OPENER|][2] == s[2];
      assert s[..|OPENER|][3] == s[3] && s[..|OPENER|][4] == s[4] && s[..|OPENER|][5] == s[5];
      assert s[..|OPENER|][6] == s[6] && s[..|OPENER|][7] == s[7];
    }
    HeaderIn(s, |OPENER|, p);
    FenceIn(s, j + 1, c);
  }

  /** Where the pieces of a single block sit. */
  lemma SingleBlockLayout(p: string, c: string)
    ensures var s := OPENER + p + "\n" + c + FENCE;
            var j := |OPENER| + |p|;
            && |s| == j + 1 + |c| + |FENCE|
            && s[..|OPENER|] == OPENER && s[|OPENER|..j] == p && s[j] == '\n'
            && s[j + 1..j + 1 + |c|] == c && s[j + 1 + |c|..] == FENCE
  {
    var s := OPENER + p + "\n" + c + FENCE;
    var j := |OPENER| + |p|;
    assert s == (OPENER + p) + ("\n" + c + FENCE);
    Halves(OPENER + p, "\n" + c + FENCE);
    Halves(OPENER, p);
    Halves("\n", c + FENCE);
    Halves(c, FENCE);
  }

  /** A header free of line terminators followed by "\n" ends where the "\n" is. */
  lemma HeaderIn(s: string, from: nat, p: string)
    requires forall k :: 0 <= k < |p| ==> !IsLineTerminator(p[k])
    requires from + |p| < |s| && s[from..from + |p|] == p && s[from + |p|] == '\n'
    ensures HeaderEnd(s, from) == from + |p|
  {
    forall k | from <= k < from + |p| ensures !IsLineTerminator(s[k]) {
      assert s[k] == p[k - from];
    }
    HeaderEndIsFirst(s, from, from + |p|);
  }

  /** Content free of fences, not ending in a backtick and followed by a fence:
      the first fence is the one after it. */
  lemma FenceIn(s: string, from: nat, c: string)
    requires !Contains(c, FENCE) && (c == [] || c[|c| - 1] != '`')
    requires from + |c| + |FENCE| == |s| && s[from..from + |c|] == c && s[from + |c|..] == FENCE
    ensures FenceFrom(s, from) == Some(from + |c|)
  {
    var close := from + |c|;
    forall m | from <= m < close ensures !FenceAt(s, m) {
      if FenceAt(s, m) {
        var o := m - from;
        if m + |FENCE| <= close {
          assert c[o] == s[m] && c[o + 1] == s[m + 1] && c[o + 2] == s[m + 2];
          FenceAtOccurs(c, o);
        }
      }
    }
    assert s[close] == s[close..][0] && s[close + 1] == s[close..][1] && s[close + 2] == s[close..][2];
    FenceFromIsFirst(s, from, close);
  }

  lemma {:induction false} HeaderEndIsFirst(s: string, from: nat, j: nat)
    requires from <= j < |s| && IsLineTerminator(s[j])
    requires forall k :: from <= k < j ==> !IsLineTerminator(s[k])
    ensures HeaderEnd(s, from) == j
    decreases j - from
  {
    if from < j {
      HeaderEndIsFirst(s, from + 1, j);
    }
  }

  lemma {:induction false} FenceFromIsFirst(s: string, from: nat, c: nat)
    requires from <= c && FenceAt(s, c)
    requires forall m :: from <= m < c ==> !FenceAt(s, m)
    ensures FenceFrom(s, from) == Some(c)
    decreases c - from
  {
    if from < c {
      FenceFromIsFirst(s, from + 1, c);
    }
  }

  // ---- runTask ------------------------------------------------------------

  const CHAT_ENDPOINT: string := "https://api.deepseek.com/v1/chat/completions"
  const CODE_ENDPOINT: string := "https://api.deepseek.com/v1/code/completions"
  const CODE_MODEL: string := "deepseek-code"
  const CHAT_MODEL: string := "deepseek-chat"
  const GENERATE_FILES: string := "generate-files"
  const MISSING_KEY_MESSAGE: string :=
    "DeepSeek API key missing. Set the DEEPSEEK_API_KEY environment variable before running tasks."
  const NO_RESPONSE: string := "No response."
  const FAILURE_PREFIX: string := "DeepSeek API request failed: "

  /** The POST the client sends: endpoint, bearer token and JSON body
      (model, the system and user messages, temperature in tenths). */
  datatype ChatRequest = ChatRequest(
    endpoint: string,
    authorization: string,
    model: string,
    systemPrompt: string,
    userPrompt: string,
    temperatureTenths: nat)

  /** How the POST ended: a response body, or an exception with its message. */
  datatype HttpOutcome = Responded(data: Json) | Threw(message: string)

  /** The object `runTask` resolves with. */
  datatype TaskResponse = TaskResponse(id: Json, message: Json, files: seq<GeneratedFile>)

  /** A run: the request that went out, if any, and the response. */
  datatype Run = Run(sent: Option<ChatRequest>, response: TaskResponse)

  /** The request body for a model name. */
  function RequestFor(model: string, prompt: string, apiKey: string): (q: ChatRequest)
    ensures q.endpoint == CODE_ENDPOINT <==> model == CODE_MODEL
    ensures q.endpoint == CHAT_ENDPOINT <==> model != CODE_MODEL
    ensures q.model == (if model == CODE_MODEL then CODE_MODEL else CHAT_MODEL)
    ensures q.userPrompt == prompt && q.authorization == "Bearer " + apiKey
  {
    if model == CODE_MODEL then
      ChatRequest(CODE_ENDPOINT, "Bearer " + apiKey, CODE_MODEL, "You are an AI pair programmer.", prompt, 3)
    else
      ChatRequest(CHAT_ENDPOINT, "Bearer " + apiKey, CHAT_MODEL,
                  "You are AI Builder, an expert project assistant.", prompt, 4)
  }

  /** `response.data?.choices?.[0]?.message?.content`: absent when any link
      of the chain is missing. */
  function ReplyContent(data: Json): Option<Json> {
    Get(Get(First(Get(Some(data), "choices")), "message"), "content")
  }

  /** `response.data?.choices?.[0]?.message?.content || 'No response.'`: the
      content when it is truthy, and "No response." when it is missing or falsy. */
  function ReplyMessage(data: Json): (m: Json)
    ensures Truthy(m)
    ensures TruthyOpt(ReplyContent(data)) ==> m == ReplyContent(data).value
    ensures !TruthyOpt(ReplyContent(data)) ==> m == JStr(NO_RESPONSE)
  {
    OrElse(ReplyContent(data), JStr(NO_RESPONSE))
  }

  /** `runTask`: `Failure` is a thrown error with its message; `freshId` is
      the `randomUUID()` used when the reply carries no id. */
  function RunTask(model: string, prompt: string, mode: string, apiKey: Option<string>,
                   reply: HttpOutcome, freshId: string): (r: Result<Run, string>)
    ensures model == "" ==> r == Failure("Model is required")
    ensures model != "" && prompt == "" ==> r == Failure("Prompt is required")
    ensures r.Failure? <==> model == "" || prompt == ""
    ensures r.Success? ==> (r.value.sent.None? <==> apiKey.None? || apiKey.value == "")
    ensures r.Success? && r.value.sent.None? ==>
              r.value.response == TaskResponse(JStr(freshId), JStr(MISSING_KEY_MESSAGE), [])
    ensures r.Success? && r.value.sent.Some? ==> r.value.sent.value == RequestFor(model, prompt, apiKey.value)
    ensures r.Success? && r.value.response.files != [] ==>
              mode == GENERATE_FILES && reply.Responded? && r.value.sent.Some?
  {
    if model == "" then Failure("Model is required")
    else if prompt == "" then Failure("Prompt is required")
    else if apiKey.None? || apiKey.value == "" then
      Success(Run(None, TaskResponse(JStr(freshId), JStr(MISSING_KEY_MESSAGE), [])))
    else
      var request := RequestFor(model, prompt, apiKey.value);
      match reply
      case Threw(msg) =>
        Success(Run(Some(request), TaskResponse(JStr(freshId), JStr(FAILURE_PREFIX + msg), [])))
      case Responded(data) =>
        var message := ReplyMessage(data);
        var files := if mode == GENERATE_FILES && message.JStr? then ParsedFiles(message.s) else [];
        var id := OrElse(Get(Some(data), "id"), JStr(freshId));
        Success(Run(Some(request), TaskResponse(id, message, files)))
  }

  /** A reply that answers with text: that text is the message, its blocks are
      the files exactly when the mode asks for files, and the reply's id is
      used when it has one. */
  lemma RunTaskAnswered(model: string, prompt: string, mode: string, key: string,
                        data: Json, text: string, freshId: string)
    requires model != "" && prompt != "" && key != "" && text != ""
    requires ReplyMessage(data) == JStr(text)
    ensures var r := RunTask(model, prompt, mode, Some(key), Responded(data), freshId);
            && r.Success?
            && r.value.response.message == JStr(text)
            && r.value.response.files == (if mode == GENERATE_FILES then ParsedFiles(text) else [])
            && r.value.response.id == OrElse(Get(Some(data), "id"), JStr(freshId))
  {
  }

  /** A reply whose content is missing or falsy reads "No response." and
      proposes no files; its id is still used when it has one. */
  lemma RunTaskNoContent(model: string, prompt: string, mode: string, key: string, data: Json, freshId: string)
    requires model != "" && prompt != "" && key != ""
    requires !TruthyOpt(ReplyContent(data))
    ensures var r := RunTask(model, prompt, mode, Some(key), Responded(data), freshId);
            r.Success? && r.value.response ==
              TaskResponse(OrElse(Get(Some(data), "id"), JStr(freshId)), JStr(NO_RESPONSE), [])
  {
    assert !Contains(NO_RESPONSE, OPENER) by {
      forall i | 0 <= i <= |NO_RESPONSE| ensures !OccursAt(NO_RESPONSE, OPENER, i) {
        OpenerAtOccurs(NO_RESPONSE, i);
        if i + 8 <= |NO_RESPONSE| {
          assert NO_RESPONSE[i] != '`';
        }
      }
    }
    NoOpenerNoFiles(NO_RESPONSE);
  }

  /** A failed request becomes a response carrying the error text and no files. */
  lemma RunTaskFailed(model: string, prompt: string, mode: string, key: string, msg: string, freshId: string)
    requires model != "" && prompt != "" && key != ""
    ensures RunTask(model, prompt, mode, Some(key), Threw(msg), freshId)
            == Success(Run(Some(RequestFor(model, prompt, key)),
                           TaskResponse(JStr(freshId), JStr(FAILURE_PREFIX + msg), [])))
  {
  }
}
