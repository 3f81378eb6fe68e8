/**
  Choosing the JSON text inside a model reply (both scripts do the same): the
  first match of /```(?:json)?\s*([\s\S]*?)```/ keeps only the capture group,
  trimmed; without a match the whole reply is used unchanged.
 */
module Fences {
  import opened Results

  /** The characters `\s` matches and `String.prototype.trim` removes:
      ECMAScript WhiteSpace and LineTerminator. */
  predicate IsSpace(c: char) {
    c == '\t' || c == '\n' || c == '\U{000B}' || c == '\U{000C}' || c == '\r' || c == ' '
    || c == '\U{00A0}' || c == '\U{1680}' || ('\U{2000}' <= c <= '\U{200A}')
    || c == '\U{2028}' || c == '\U{2029}' || c == '\U{202F}' || c == '\U{205F}'
    || c == '\U{3000}' || c == '\U{FEFF}'
  }

  /** Three backticks start at position k. */
  predicate IsFenceAt(s: string, k: int) {
    0 <= k && k + 3 <= |s| && s[k] == '`' && s[k + 1] == '`' && s[k + 2] == '`'
  }

  /** The optional `json` tag starts at position p. */
  predicate HasJsonTag(s: string, p: nat) {
    p + 4 <= |s| && s[p..p + 4] == "json"
  }

  /** The first fence at or after `from`. */
  function FindFence(s: string, from: nat): (r: Option<nat>)
    ensures r.Some? ==> from <= r.value && IsFenceAt(s, r.value)
    decreases |s| - from
  {
    if from + 3 > |s| then None
    else if IsFenceAt(s, from) then Some(from)
    else FindFence(s, from + 1)
  }

  /** No fence starts between `from` and the one FindFence reports, nor
      anywhere after `from` when it reports none. */
  lemma {:induction false} FindFenceIsFirst(s: string, from: nat)
    ensures FindFence(s, from).Some? ==> forall j :: from <= j < FindFence(s, from).value ==> !IsFenceAt(s, j)
    ensures FindFence(s, from).None? ==> forall j :: from <= j ==> !IsFenceAt(s, j)
    decreases |s| - from
  {
    if from + 3 <= |s| && !IsFenceAt(s, from) {
      FindFenceIsFirst(s, from + 1);
    }
  }

  /** Where a greedy run of spaces starting at `from` ends. */
  function SkipSpaces(s: string, from: nat): (r: nat)
    requires from <= |s|
    ensures from <= r <= |s|
    ensures r == |s| || !IsSpace(s[r])
    decreases |s| - from
  {
    if from < |s| && IsSpace(s[from]) then SkipSpaces(s, from + 1) else from
  }

  /** Everything SkipSpaces passes over is a space. */
  lemma {:induction false} SkipSpacesSpans(s: string, from: nat)
    requires from <= |s|
    ensures forall j :: from <= j < SkipSpaces(s, from) ==> IsSpace(s[j])
    decreases |s| - from
  {
    if from < |s| && IsSpace(s[from]) {
      SkipSpacesSpans(s, from + 1);
    }
  }

  /** `String.prototype.trimStart`. */
  function TrimStart(s: string): (r: string)
    ensures r == [] || !IsSpace(r[0])
  {
    if s != [] && IsSpace(s[0]) then TrimStart(s[1..]) else s
  }

  /** `String.prototype.trimEnd`. */
  function TrimEnd(s: string): (r: string)
    ensures r == [] || !IsSpace(r[|r| - 1])
    ensures r != [] ==> s != [] && r[0] == s[0]
  {
    if s != [] && IsSpace(s[|s| - 1]) then TrimEnd(s[..|s| - 1]) else s
  }

  /** `String.prototype.trim`. */
  function Trim(s: string): (r: string)
    ensures r == [] || (!IsSpace(r[0]) && !IsSpace(r[|r| - 1]))
  {
    TrimEnd(TrimStart(s))
  }

  /** Where the optional `json` tag after an opening fence at i ends. */
  function TagEnd(s: string, i: nat): (t: nat)
    requires IsFenceAt(s, i)
    ensures t <= |s|
  {
    if HasJsonTag(s, i + 3) then i + 7 else i + 3
  }

  /** The capture group of the leftmost match of the fence pattern, or None
      when the pattern does not match. The pattern can only match at the first
      fence of the text (see FencedBlockIsFirstMatch). */
  function FencedBlock(s: string): Option<string>
  {
    match FindFence(s, 0)
    case None => None
    case Some(i) =>
      var w := SkipSpaces(s, TagEnd(s, i));
      match FindFence(s, w)
      case None => None
      case Some(k) => Some(s[w..k])
  }

  /** The text handed to JSON.parse: the trimmed group of the first match,
      or the whole content when the pattern does not match. */
  function SelectJsonText(content: string): (r: string)
    ensures FencedBlock(content).None? ==> r == content
    ensures FencedBlock(content).Some? ==> r == [] || (!IsSpace(r[0]) && !IsSpace(r[|r| - 1]))
  {
    match FencedBlock(content)
    case Some(block) => Trim(block)
    case None => content
  }

  // ----- The regular expression, stated as a backtracking matcher sees it -----

  /** One way the pattern can match: the opening fence at i, the tag ending at
      t, the spaces ending at w, the lazy group s[w..k] and the closing fence
      at k. */
  ghost predicate IsMatch(s: string, i: int, t: int, w: int, k: int) {
    IsFenceAt(s, i)
    && (t == i + 3 || (t == i + 7 && HasJsonTag(s, i + 3)))
    && IsFenceAt(s, k)
    && t <= w <= k
    && (forall j :: t <= j < w ==> IsSpace(s[j]))
  }

  /** The match the regular expression engine reports: the leftmost start; at
      that start the tag is tried before its absence, `\s*` longest first and
      the lazy group shortest first. */
  ghost predicate IsPreferred(s: string, i: int, t: int, w: int, k: int) {
    forall i', t', w', k' :: IsMatch(s, i', t', w', k') ==>
      i < i' || (i == i' && (t > t' || (t == t' && (w > w' || (w == w' && k <= k')))))
  }

  /** FencedBlock is what String.prototype.match captures: None exactly when
      the pattern matches nowhere, and otherwise the group of the preferred
      match. */
  lemma FencedBlockIsFirstMatch(s: string)
    ensures FencedBlock(s).None? <==> forall i, t, w, k :: !IsMatch(s, i, t, w, k)
    ensures FencedBlock(s).Some? ==>
      exists i, t, w, k :: IsMatch(s, i, t, w, k) && IsPreferred(s, i, t, w, k) && FencedBlock(s).value == s[w..k]
  {
    FindFenceIsFirst(s, 0);
    match FindFence(s, 0)
    case None =>
    case Some(i) =>
      var t := TagEnd(s, i);
      var w := SkipSpaces(s, t);
      SkipSpacesSpans(s, t);
      FindFenceIsFirst(s, w);
      // no backtick between the opening fence and w
      assert forall j :: i + 3 <= j < w ==> s[j] != '`' by {
        forall j | i + 3 <= j < w ensures s[j] != '`' {
          if j < t {
            assert s[i + 3..i + 7][j - (i + 3)] == s[j];
          }
        }
      }
      match FindFence(s, w)
      case None =>
        forall i', t', w', k' ensures !IsMatch(s, i', t', w', k') {
        }
      case Some(k) =>
        assert IsMatch(s, i, t, w, k);
        forall i', t', w', k' | IsMatch(s, i', t', w', k')
          ensures i < i' || (i == i' && (t > t' || (t == t' && (w > w' || (w == w' && k <= k')))))
        {
        }
  }

  /** Somewhere in the text an opening fence is followed by a separate closing
      fence. */
  ghost predicate HasFencePair(s: string) {
    exists i, k :: IsFenceAt(s, i) && IsFenceAt(s, k) && i + 3 <= k
  }

  /** The fenced branch is taken exactly when the text holds two fences that
      do not overlap; otherwise the whole text is parsed unchanged. */
  lemma FencedIffFencePair(s: string)
    ensures FencedBlock(s).Some? <==> HasFencePair(s)
    ensures !HasFencePair(s) ==> SelectJsonText(s) == s
  {
    FencedBlockIsFirstMatch(s);
    if HasFencePair(s) {
      var i, k :| IsFenceAt(s, i) && IsFenceAt(s, k) && i + 3 <= k;
      assert IsMatch(s, i, i + 3, i + 3, k);
    }
  }

  /** TrimStart drops a prefix of spaces. */
  lemma {:induction false} TrimStartSplit(s: string)
    ensures |TrimStart(s)| <= |s| && TrimStart(s) == s[|s| - |TrimStart(s)|..]
    ensures forall j :: 0 <= j < |s| - |TrimStart(s)| ==> IsSpace(s[j])
  {
    if s != [] && IsSpace(s[0]) {
      TrimStartSplit(s[1..]);
      var n := |s| - |TrimStart(s)|;
      assert s[1..][n - 1..] == s[n..];
      forall j | 1 <= j < n ensures IsSpace(s[j]) {
        assert s[1..][j - 1] == s[j];
      }
    }
  }

  /** TrimEnd drops a suffix of spaces. */
  lemma {:induction false} TrimEndSplit(s: string)
    ensures |TrimEnd(s)| <= |s| && TrimEnd(s) == s[..|TrimEnd(s)|]
    ensures forall j :: |TrimEnd(s)| <= j < |s| ==> IsSpace(s[j])
  {
    if s != [] && IsSpace(s[|s| - 1]) {
      var p := s[..|s| - 1];
      TrimEndSplit(p);
      assert p[..|TrimEnd(s)|] == s[..|TrimEnd(s)|];
      forall j | |TrimEnd(s)| <= j < |s| - 1 ensures IsSpace(s[j]) {
        assert p[j] == s[j];
      }
    }
  }

  /** Trim removes only spaces, and only at the two ends. */
  lemma TrimRemovesOnlyEdgeSpaces(s: string)
    ensures exists a, b :: 0 <= a <= b <= |s| && Trim(s) == s[a..b]
                           && (forall j :: 0 <= j < a ==> IsSpace(s[j]))
                           && (forall j :: b <= j < |s| ==> IsSpace(s[j]))
  {
    var a, b := TrimBounds(s);
  }

  /** Where the trimmed text lies in the original. */
  lemma TrimBounds(s: string) returns (a: nat, b: nat)
    ensures a <= b <= |s| && Trim(s) == s[a..b]
    ensures forall j :: 0 <= j < a ==> IsSpace(s[j])
    ensures forall j :: b <= j < |s| ==> IsSpace(s[j])
  {
    var x := TrimStart(s);
    TrimStartSplit(s);
    TrimEndSplit(x);
    a := |s| - |x|;
    b := a + |TrimEnd(x)|;
    SliceOfSuffix(s, a, b);
    forall j | b <= j < |s| ensures IsSpace(s[j]) {
      assert x[j - a] == s[j];
    }
  }

  /** A prefix of a suffix is a slice. */
  lemma SliceOfSuffix(s: string, a: nat, b: nat)
    requires a <= b <= |s|
    ensures s[a..][..b - a] == s[a..b]
  {
  }

  /** Leading spaces make no difference to TrimStart. */
  lemma {:induction false} TrimStartSkips(s: string, n: nat)
    requires n <= |s|
    requires forall j :: 0 <= j < n ==> IsSpace(s[j])
    ensures TrimStart(s[n..]) == TrimStart(s)
    decreases n
  {
    if n > 0 {
      assert IsSpace(s[0]);
      TrimStartSkips(s[1..], n - 1);
      assert s[1..][n - 1..] == s[n..];
    }
  }

  /** Trailing spaces make no difference to TrimEnd. */
  lemma {:induction false} TrimEndSkips(s: string, n: nat)
    requires n <= |s|
    requires forall j :: n <= j < |s| ==> IsSpace(s[j])
    ensures TrimEnd(s[..n]) == TrimEnd(s)
    decreases |s| - n
  {
    if n < |s| {
      var p := s[..|s| - 1];
      assert IsSpace(s[|s| - 1]);
      TrimEndSkips(p, n);
      assert p[..n] == s[..n];
    } else {
      assert s[..n] == s;
    }
  }

  /** Leading spaces make no difference to Trim. */
  lemma TrimSkipsLeadingSpaces(s: string, n: nat)
    requires n <= |s|
    requires forall j :: 0 <= j < n ==> IsSpace(s[j])
    ensures Trim(s[n..]) == Trim(s)
  {
    TrimStartSkips(s, n);
  }

  /** Trimming determines its result: any split of the text into spaces, a
      core without edge spaces, and spaces, has Trim's result as the core. */
  lemma TrimIsUnique(s: string, a: nat, b: nat)
    requires a <= b <= |s|
    requires forall j :: 0 <= j < a ==> IsSpace(s[j])
    requires forall j :: b <= j < |s| ==> IsSpace(s[j])
    requires a == b || (!IsSpace(s[a]) && !IsSpace(s[b - 1]))
    ensures Trim(s) == s[a..b]
  {
    if a == b {
      TrimStartSkips(s, |s|);
      assert s[|s|..] == [];
    } else {
      TrimStartSkips(s, a);
      var x := s[a..];
      assert TrimStart(x) == x;
      TrimEndSkips(x, b - a);
      assert x[..b - a] == s[a..b];
    }
  }

  /** Trim removes nothing from text without edge spaces. */
  lemma TrimOfTrimmed(s: string)
    requires s == [] || (!IsSpace(s[0]) && !IsSpace(s[|s| - 1]))
    ensures Trim(s) == s
  {
    TrimIsUnique(s, 0, |s|);
  }

  /** A text in which no fence starts between `from` and `end` (`end` is
      typically the closing fence) holds no fence in s[from..end]. */
  lemma NoFenceInside(s: string, from: nat, end: nat)
    requires from <= end <= |s|
    requires forall j :: from <= j < end ==> !IsFenceAt(s, j)
    ensures forall j :: !IsFenceAt(s[from..end], j)
  {
    forall j | IsFenceAt(s[from..end], j) ensures false {
      assert IsFenceAt(s, from + j);
    }
  }

  /** The selected text never contains a fence when a block was found. */
  lemma SelectedBlockHasNoFence(s: string)
    requires FencedBlock(s).Some?
    ensures forall j :: !IsFenceAt(SelectJsonText(s), j)
  {
    var i := FindFence(s, 0).value;
    var w := SkipSpaces(s, TagEnd(s, i));
    var k := FindFence(s, w).value;
    var g := s[w..k];
    FindFenceIsFirst(s, w);
    NoFenceInside(s, w, k);
    TrimRemovesOnlyEdgeSpaces(g);
    var a, b :| 0 <= a <= b <= |g| && Trim(g) == g[a..b];
    NoFenceInside(g, a, b);
  }

  /** Selecting twice selects nothing more: the selected text holds no fence
      pair, so a second pass returns it unchanged. */
  lemma {:induction false} SelectIsIdempotent(s: string)
    ensures SelectJsonText(SelectJsonText(s)) == SelectJsonText(s)
  {
    if FencedBlock(s).Some? {
      SelectedBlockHasNoFence(s);
      FencedIffFencePair(SelectJsonText(s));
    }
  }

  /** The first fence at or after `from` is at k when k holds one and no
      backtick lies between. */
  lemma {:induction false} FindFenceAt(s: string, from: nat, k: nat)
    requires from <= k && IsFenceAt(s, k)
    requires forall j :: from <= j < k ==> s[j] != '`'
    ensures FindFence(s, from) == Some(k)
    decreases k - from
  {
    if from < k {
      assert s[from] != '`';
      FindFenceAt(s, from + 1, k);
    }
  }

  /** Where the optional tag ends after a fence at i that is followed by `tag`
      and then by `rest`. */
  lemma TagEndAfter(s: string, i: nat, tag: string, rest: string)
    requires i + 3 + |tag| + |rest| == |s| && s[i + 3..] == tag + rest
    requires tag == "json" || (tag == "" && !HasJsonTag(rest, 0))
    ensures IsFenceAt(s, i) ==> TagEnd(s, i) == i + 3 + |tag|
  {
    if tag == "json" {
      assert s[i + 3..i + 7] == (tag + rest)[..4];
    } else if |rest| >= 4 {
      assert s[i + 3..i + 7] == rest[..4];
    } else {
      assert !HasJsonTag(s, i + 3);
    }
  }

  /** After a preamble without backticks, the first fence is the one that
      ends the preamble. */
  lemma FenceAfterPreamble(pre: string, rest: string)
    requires '`' !in pre && |rest| >= 3 && rest[..3] == "```"
    ensures FindFence(pre + rest, 0) == Some(|pre|)
  {
    var s := pre + rest;
    assert forall j :: 0 <= j < |pre| ==> s[j] == pre[j];
    assert s[|pre|..|pre| + 3] == rest[..3];
    FindFenceAt(s, 0, |pre|);
  }

  /** A body without backticks that starts at t and is closed by a fence: the
      spaces skipped from t are leading spaces of the body, and the lazy group
      runs to the closing fence. */
  lemma BodyUpToClosingFence(s: string, t: nat, body: string)
    requires t + |body| + 3 <= |s| && s[t..t + |body|] == body && '`' !in body
    requires IsFenceAt(s, t + |body|)
    ensures SkipSpaces(s, t) <= t + |body|
    ensures FindFence(s, SkipSpaces(s, t)) == Some(t + |body|)
    ensures s[SkipSpaces(s, t)..t + |body|] == body[SkipSpaces(s, t) - t..]
    ensures forall j :: 0 <= j < SkipSpaces(s, t) - t ==> IsSpace(body[j])
  {
    var c := t + |body|;
    var w := SkipSpaces(s, t);
    SkipSpacesSpans(s, t);
    assert forall j :: t <= j < c ==> s[j] == body[j - t];
    assert !IsSpace(s[c]);
    FindFenceAt(s, w, c);
  }

  /** FencedBlock in terms of the positions it finds. */
  lemma FencedBlockAt(s: string, i: nat, w: nat, k: nat)
    requires FindFence(s, 0) == Some(i)
    requires w == SkipSpaces(s, TagEnd(s, i)) && FindFence(s, w) == Some(k)
    ensures w <= k && FencedBlock(s) == Some(s[w..k])
  {
  }

  /** Once the opening fence and its tag are known, a body without backticks
      closed by a fence selects as the trimmed body. */
  lemma SelectBody(s: string, i: nat, body: string)
    requires FindFence(s, 0) == Some(i)
    requires TagEnd(s, i) + |body| + 3 <= |s|
    requires s[TagEnd(s, i)..TagEnd(s, i) + |body|] == body && IsFenceAt(s, TagEnd(s, i) + |body|)
    requires '`' !in body
    ensures SelectJsonText(s) == Trim(body)
  {
    var n := BlockOfBody(s, i, body);
    SelectOfBlock(s, body[n..]);
    TrimSkipsLeadingSpaces(body, n);
  }

  /** The fenced block is the body without the spaces `\s*` takes. */
  lemma BlockOfBody(s: string, i: nat, body: string) returns (n: nat)
    requires FindFence(s, 0) == Some(i)
    requires TagEnd(s, i) + |body| + 3 <= |s|
    requires s[TagEnd(s, i)..TagEnd(s, i) + |body|] == body && IsFenceAt(s, TagEnd(s, i) + |body|)
    requires '`' !in body
    ensures n <= |body| && FencedBlock(s) == Some(body[n..])
    ensures forall j :: 0 <= j < n ==> IsSpace(body[j])
  {
    var t := TagEnd(s, i);
    var w := SkipSpaces(s, t);
    BodyUpToClosingFence(s, t, body);
    FencedBlockAt(s, i, w, t + |body|);
    n := w - t;
  }

  /** A fenced block is parsed trimmed. */
  lemma SelectOfBlock(s: string, block: string)
    requires FencedBlock(s) == Some(block)
    ensures SelectJsonText(s) == Trim(block)
  {
  }

  /** A reply made of a preamble without backticks, a fence, the tag, the
      body, a fence and a trailer opens at the end of the preamble. */
  lemma ReplyOpens(pre: string, tag: string, body: string, post: string)
    requires '`' !in pre
    ensures FindFence(pre + "```" + tag + body + "```" + post, 0) == Some(|pre|)
  {
    var rest := "```" + (tag + (body + "```" + post));
    assert pre + "```" + tag + body + "```" + post == pre + rest;
    FenceAfterPreamble(pre, rest);
  }

  /** Where the tag, the body and the closing fence of such a reply lie. */
  lemma ReplyParts(pre: string, tag: string, body: string, post: string)
    ensures var s := pre + "```" + tag + body + "```" + post;
            var t := |pre| + 3 + |tag|;
            && t + |body| + 3 <= |s|
            && s[t..t + |body|] == body && IsFenceAt(s, t + |body|)
            && IsFenceAt(s, |pre|) && s[|pre| + 3..] == tag + (body + "```" + post)
  {
    var s := pre + "```" + tag + body + "```" + post;
    var t := |pre| + 3 + |tag|;
    assert s[..t + |body|] == pre + "```" + tag + body;
    assert s[t + |body|..t + |body| + 3] == "```";
    assert s[|pre|..|pre| + 3] == "```";
  }

  /** The optional tag of such a reply ends where `tag` ends. */
  lemma ReplyTag(pre: string, tag: string, body: string, post: string)
    requires '`' !in body
    requires tag == "json" || (tag == "" && !HasJsonTag(body, 0))
    requires var s := pre + "```" + tag + body + "```" + post;
             s[|pre| + 3..] == tag + (body + "```" + post) && IsFenceAt(s, |pre|)
    ensures TagEnd(pre + "```" + tag + body + "```" + post, |pre|) == |pre| + 3 + |tag|
  {
    var rest := body + "```" + post;
    if HasJsonTag(rest, 0) && |body| < 4 {
      assert rest[..4][|body|] == '`';
    }
    assert |rest| < 4 ==> rest[|body|] == '`';
    TagEndAfter(pre + "```" + tag + body + "```" + post, |pre|, tag, rest);
  }

  /** A reply that wraps `body` in one fenced block, optionally tagged `json`,
      after a preamble and before any trailer, yields the trimmed body. */
  lemma SelectFromFencedBlock(pre: string, tag: string, body: string, post: string)
    requires '`' !in pre && '`' !in body
    requires tag == "json" || (tag == "" && !HasJsonTag(body, 0))
    ensures SelectJsonText(pre + "```" + tag + body + "```" + post) == Trim(body)
  {
    ReplyOpens(pre, tag, body, post);
    ReplyParts(pre, tag, body, post);
    ReplyTag(pre, tag, body, post);
    SelectBody(pre + "```" + tag + body + "```" + post, |pre|, body);
  }

  /** A typical reply, a preamble and a `json`-tagged block around {"a":1},
      selects exactly {"a":1}. */
  lemma SelectExample()
    ensures SelectJsonText("Here is the data:\n```json\n{\"a\":1}\n```") == "{\"a\":1}"
  {
    var pre, body := "Here is the data:\n", "\n{\"a\":1}\n";
    assert pre + "```" + "json" + body + "```" + "" == "Here is the data:\n```json\n{\"a\":1}\n```";
    ExampleParts(pre, body);
    SelectFromFencedBlock(pre, "json", body, "");
  }

  /** The preamble and the body of that reply. */
  lemma ExampleParts(pre: string, body: string)
    requires pre == "Here is the data:\n" && body == "\n{\"a\":1}\n"
    ensures '`' !in pre && '`' !in body
    ensures Trim(body) == "{\"a\":1}"
  {
    var core := "{\"a\":1}";
    assert body == "\n" + core + "\n";
    MiddleOfConcat("\n", core, "\n");
    TrimIsUnique(body, 1, 8);
  }

  /** The middle part of a concatenation, as a slice. */
  lemma MiddleOfConcat(x: string, y: string, z: string)
    ensures (x + y + z)[|x|..|x| + |y|] == y
  {
  }
}
