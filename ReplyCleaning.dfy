/** The tolerant decoding of the language model's reply in `/api/generate-quiz`
    (server.js:140-167): parse the raw text; only if that fails, trim it, strip
    markdown code fences, narrow it to the first `[ { ... } ]` region and parse
    once more. JSON.parse itself is a parameter of the model. */
module ReplyCleaning {
  import opened Js

  // ---------------------------------------------------------------------------
  // White space: what the regular-expression class `\s` matches and what
  // String.prototype.trim removes (ECMAScript WhiteSpace and LineTerminator).
  // ---------------------------------------------------------------------------

  predicate IsSpace(c: char) {
    var n := c as int;
    n == 0x09 || n == 0x0A || n == 0x0B || n == 0x0C || n == 0x0D || n == 0x20
    || n == 0xA0 || n == 0x1680 || (0x2000 <= n <= 0x200A) || n == 0x2028
    || n == 0x2029 || n == 0x202F || n == 0x205F || n == 0x3000 || n == 0xFEFF
  }

  function TrimStart(s: string): (r: string)
    ensures |r| <= |s| && r == s[|s| - |r|..]
    ensures r == [] || !IsSpace(r[0])
  {
    if s != [] && IsSpace(s[0]) then TrimStart(s[1..]) else s
  }

  function TrimEnd(s: string): (r: string)
    ensures |r| <= |s| && r == s[..|r|]
    ensures r == [] || !IsSpace(r[|r| - 1])
  {
    if s != [] && IsSpace(s[|s| - 1]) then TrimEnd(s[..|s| - 1]) else s
  }

  /** What trimming the start removes is white space only. */
  lemma {:induction false} TrimStartRemovesSpace(s: string)
    ensures forall k :: 0 <= k < |s| - |TrimStart(s)| ==> IsSpace(s[k])
    decreases |s|
  {
    if s != [] && IsSpace(s[0]) {
      var tail := s[1..];
      TrimStartRemovesSpace(tail);
      assert TrimStart(s) == TrimStart(tail);
      forall k | 1 <= k < |s| - |TrimStart(s)| ensures IsSpace(s[k]) {
        assert s[k] == tail[k - 1];
      }
    }
  }

  /** What trimming the end removes is white space only. */
  lemma {:induction false} TrimEndRemovesSpace(s: string)
    ensures forall k :: |TrimEnd(s)| <= k < |s| ==> IsSpace(s[k])
    decreases |s|
  {
    if s != [] && IsSpace(s[|s| - 1]) {
      var init := s[..|s| - 1];
      TrimEndRemovesSpace(init);
      assert TrimEnd(s) == TrimEnd(init);
      forall k | |TrimEnd(s)| <= k < |s| - 1 ensures IsSpace(s[k]) {
        assert s[k] == init[k];
      }
    }
  }

  /** String.prototype.trim: what is left has no white space at either end. */
  function Trim(s: string): (r: string)
    ensures |r| <= |s| && IsTrimmed(r)
  {
    TrimEnds(TrimStart(s), TrimEnd(TrimStart(s)));
    TrimEnd(TrimStart(s))
  }

  predicate IsTrimmed(s: string) {
    s == [] || (!IsSpace(s[0]) && !IsSpace(s[|s| - 1]))
  }

  /** trim yields a contiguous slice of its input: it removes characters at
      the two ends only. */
  lemma {:induction false} TrimIsSlice(s: string)
    ensures |s| - |TrimStart(s)| + |Trim(s)| <= |s|
    ensures Trim(s) == s[|s| - |TrimStart(s)|..|s| - |TrimStart(s)| + |Trim(s)|]
  {
    var a := TrimStart(s);
    assert Trim(s) == TrimEnd(a);
    TrimSlice(s, a, TrimEnd(a), |s| - |a|);
  }

  lemma {:induction false} TrimSlice(s: string, a: string, r: string, i: nat)
    requires i <= |s| && a == s[i..] && |r| <= |a| && r == a[..|r|]
    ensures i + |r| <= |s| && r == s[i..i + |r|]
  {
  }

  lemma {:induction false} TrimEnds(a: string, r: string)
    requires a == [] || !IsSpace(a[0])
    requires |r| <= |a| && r == a[..|r|]
    requires r == [] || !IsSpace(r[|r| - 1])
    ensures IsTrimmed(r)
  {
    if r != [] {
      assert r[0] == a[0];
    }
  }

  /** trim leaves an already trimmed text alone. */
  lemma {:induction false} TrimOfTrimmed(s: string)
    requires IsTrimmed(s)
    ensures Trim(s) == s
  {
    assert TrimStart(s) == s;
  }

  // ---------------------------------------------------------------------------
  // Markdown fences (server.js:149-152)
  // ---------------------------------------------------------------------------

  /** Three backticks start at position i of s. */
  predicate FenceAt(s: string, i: int) {
    0 <= i && i + 3 <= |s| && s[i] == '`' && s[i + 1] == '`' && s[i + 2] == '`'
  }

  predicate NoFence(s: string) {
    forall i :: 0 <= i < |s| ==> !FenceAt(s, i)
  }

  /** `s.replace(/```(?:json)?/g, '')`: the scan goes left to right, removes a
      fence together with a `json` tag right after it, and resumes after the
      removed text. */
  function StripTagged(s: string): (r: string)
    ensures |r| <= |s|
    decreases |s|
  {
    if FenceAt(s, 0) then
      if |s| >= 7 && s[3..7] == "json" then StripTagged(s[7..]) else StripTagged(s[3..])
    else if s == [] then []
    else [s[0]] + StripTagged(s[1..])
  }

  /** `s.replace(/```/g, '')`. */
  function StripBare(s: string): (r: string)
    ensures |r| <= |s|
    decreases |s|
  {
    if FenceAt(s, 0) then StripBare(s[3..])
    else if s == [] then []
    else [s[0]] + StripBare(s[1..])
  }

  /** Line 149 and line 152: trim, both replacements, trim. */
  function StripFences(content: string): (r: string)
    ensures |r| <= |content| && IsTrimmed(r)
  {
    Trim(StripBare(StripTagged(Trim(content))))
  }

  lemma {:induction false} NoFenceSlice(s: string, i: int, j: int)
    requires NoFence(s) && 0 <= i <= j <= |s|
    ensures NoFence(s[i..j])
  {
    forall k ensures !FenceAt(s[i..j], k) {
      assert FenceAt(s[i..j], k) ==> FenceAt(s, i + k);
    }
  }

  lemma {:induction false} NoFenceSub(s: string, t: string, i: nat)
    requires NoFence(s) && i + |t| <= |s| && t == s[i..i + |t|]
    ensures NoFence(t)
  {
    NoFenceSlice(s, i, i + |t|);
  }

  lemma {:induction false} NoFenceTail(s: string)
    requires NoFence(s) && s != []
    ensures NoFence(s[1..])
  {
    NoFenceSlice(s, 1, |s|);
    assert s[1..|s|] == s[1..];
  }

  lemma {:induction false} NoFenceTrim(s: string)
    requires NoFence(s)
    ensures NoFence(Trim(s))
  {
    TrimIsSlice(s);
    NoFenceSub(s, Trim(s), |s| - |TrimStart(s)|);
  }

  /** A kept character other than a backtick survives at the head of the output. */
  lemma {:induction false} StripTaggedHead(s: string)
    requires s != [] && s[0] != '`'
    ensures StripTagged(s) != [] && StripTagged(s)[0] == s[0]
  {
  }

  /** A lone backtick followed by another character survives with it. */
  lemma {:induction false} StripTaggedHead2(s: string)
    requires |s| >= 2 && s[0] == '`' && s[1] != '`'
    ensures |StripTagged(s)| >= 2 && StripTagged(s)[0] == '`' && StripTagged(s)[1] == s[1]
  {
    StripTaggedHead(s[1..]);
  }

  /** The first replacement already removes every fence: a kept backtick never
      has two more backticks right after it in the output. */
  lemma {:induction false} StripTaggedLeavesNoFence(s: string)
    ensures NoFence(StripTagged(s))
    decreases |s|
  {
    if FenceAt(s, 0) {
      if |s| >= 7 && s[3..7] == "json" {
        StripTaggedLeavesNoFence(s[7..]);
      } else {
        StripTaggedLeavesNoFence(s[3..]);
      }
    } else if s != [] {
      var t := StripTagged(s[1..]);
      StripTaggedLeavesNoFence(s[1..]);
      var r := [s[0]] + t;
      assert StripTagged(s) == r;
      if s[0] == '`' && |s| >= 3 {
        if s[1] != '`' {
          StripTaggedHead(s[1..]);
        } else {
          StripTaggedHead2(s[1..]);
        }
      }
      forall i ensures !FenceAt(r, i) {
        if i >= 1 {
          assert FenceAt(r, i) ==> FenceAt(t, i - 1);
        }
      }
    }
  }

  lemma {:induction false} StripBareKeepsFenceless(s: string)
    requires NoFence(s)
    ensures StripBare(s) == s
    decreases |s|
  {
    if s != [] {
      NoFenceTail(s);
      StripBareKeepsFenceless(s[1..]);
    }
  }

  lemma {:induction false} StripTaggedKeepsFenceless(s: string)
    requires NoFence(s)
    ensures StripTagged(s) == s
    decreases |s|
  {
    if s != [] {
      NoFenceTail(s);
      StripTaggedKeepsFenceless(s[1..]);
    }
  }

  /** The second replacement `.replace(/```/g, '')` never changes anything. */
  lemma {:induction false} SecondReplaceIsNoOp(s: string)
    ensures StripBare(StripTagged(s)) == StripTagged(s)
  {
    StripTaggedLeavesNoFence(s);
    StripBareKeepsFenceless(StripTagged(s));
  }

  /** After fence stripping no three backticks remain and the text is trimmed. */
  lemma {:induction false} StripFencesSpec(content: string)
    ensures NoFence(StripFences(content))
    ensures IsTrimmed(StripFences(content))
  {
    var t := StripTagged(Trim(content));
    SecondReplaceIsNoOp(Trim(content));
    StripTaggedLeavesNoFence(Trim(content));
    NoFenceTrim(t);
  }

  /** A trimmed text without fences is left alone by fence stripping. */
  lemma {:induction false} StripFencesKeepsClean(u: string)
    requires NoFence(u) && IsTrimmed(u)
    ensures StripFences(u) == u
  {
    TrimOfTrimmed(u);
    StripTaggedKeepsFenceless(u);
    StripBareKeepsFenceless(u);
  }

  /** Stripping fences a second time changes nothing. */
  lemma {:induction false} StripFencesIdempotent(content: string)
    ensures StripFences(StripFences(content)) == StripFences(content)
  {
    StripFencesSpec(content);
    StripFencesKeepsClean(StripFences(content));
  }

  /** Text without fences that is followed by a character other than a
      backtick passes the first replacement unchanged. */
  lemma {:induction false} StripTaggedKeepsPrefix(u: string, t: string)
    requires NoFence(u) && t != [] && t[0] != '`'
    ensures StripTagged(u + t) == u + StripTagged(t)
    decreases |u|
  {
    if u != [] {
      assert !FenceAt(u + t, 0) by {
        if |u| >= 3 { assert !FenceAt(u, 0); }
      }
      assert (u + t)[1..] == u[1..] + t;
      NoFenceTail(u);
      StripTaggedKeepsPrefix(u[1..], t);
      calc {
        StripTagged(u + t);
        [u[0]] + StripTagged(u[1..] + t);
        [u[0]] + (u[1..] + StripTagged(t));
        { assert [u[0]] + u[1..] == u; }
        u + StripTagged(t);
      }
    } else {
      assert u + t == t;
    }
  }

  // ---------------------------------------------------------------------------
  // The array pattern `/\[\s*{[\s\S]*}\s*]/` (server.js:155-158)
  // ---------------------------------------------------------------------------

  /** The first index at or after i that `\s*` does not consume. */
  function SkipSpace(s: string, i: nat): (j: nat)
    requires i <= |s|
    ensures i <= j <= |s|
    ensures forall k :: i <= k < j ==> IsSpace(s[k])
    ensures j < |s| ==> !IsSpace(s[j])
    decreases |s| - i
  {
    if i < |s| && IsSpace(s[i]) then SkipSpace(s, i + 1) else i
  }

  /** `\[\s*{` matches at p. Since `{` is not white space, `\s*` has to take
      the whole run of white space. */
  predicate OpensAt(s: string, p: nat) {
    p < |s| && s[p] == '[' && SkipSpace(s, p + 1) < |s| && s[SkipSpace(s, p + 1)] == '{'
  }

  /** `}\s*]` matches at m. */
  predicate ClosesAt(s: string, m: nat) {
    m < |s| && s[m] == '}' && SkipSpace(s, m + 1) < |s| && s[SkipSpace(s, m + 1)] == ']'
  }

  /** Where a match sits: the `[` at start, the `{` at brace, the `}` at close,
      and end one past the final `]`. */
  datatype ArraySpan = ArraySpan(start: nat, brace: nat, close: nat, end: nat)

  predicate IsSpanOf(s: string, sp: ArraySpan) {
    && OpensAt(s, sp.start)
    && sp.brace == SkipSpace(s, sp.start + 1)
    && sp.brace < sp.close
    && ClosesAt(s, sp.close)
    && sp.end == SkipSpace(s, sp.close + 1) + 1
  }

  /** The greedy `[\s\S]*` backtracks from the end of the text: the largest m
      in [lo, hi) at which `}\s*]` matches. */
  function LastClose(s: string, lo: nat, hi: nat): (r: Option<nat>)
    requires hi <= |s|
    ensures r.Some? ==> lo <= r.value < hi && ClosesAt(s, r.value)
    ensures r.Some? ==> forall m :: r.value < m < hi ==> !ClosesAt(s, m)
    ensures r.None? ==> forall m :: lo <= m < hi ==> !ClosesAt(s, m)
    decreases hi
  {
    if hi <= lo then None
    else if ClosesAt(s, hi - 1) then Some(hi - 1)
    else LastClose(s, lo, hi - 1)
  }

  /** The engine tries start positions p, p+1, ... and stops at the first one
      where the whole pattern matches. */
  function MatchFrom(s: string, p: nat): (r: Option<ArraySpan>)
    ensures r.Some? ==> p <= r.value.start && IsSpanOf(s, r.value)
    ensures r.Some? ==> forall m :: r.value.close < m < |s| ==> !ClosesAt(s, m)
    decreases |s| - p
  {
    if p >= |s| then None
    else if OpensAt(s, p) then
      var brace := SkipSpace(s, p + 1);
      match LastClose(s, brace + 1, |s|)
      case Some(m) => Some(ArraySpan(p, brace, m, SkipSpace(s, m + 1) + 1))
      case None => MatchFrom(s, p + 1)
    else MatchFrom(s, p + 1)
  }

  /** `s.match(/\[\s*{[\s\S]*}\s*]/)`. */
  function ArrayMatch(s: string): (r: Option<ArraySpan>)
    ensures r.Some? ==> IsSpanOf(s, r.value) && r.value.start < r.value.end <= |s|
  {
    MatchFrom(s, 0)
  }

  /** An opening `[ws{` after another one has its brace further right. */
  lemma {:induction false} LaterOpenLaterBrace(s: string, p: nat, q: nat)
    requires OpensAt(s, p) && OpensAt(s, q) && p < q
    ensures SkipSpace(s, p + 1) < SkipSpace(s, q + 1)
  {
  }

  /** No `}ws]` follows the brace of any `[ws{` at or after p. */
  ghost predicate NoArrayFrom(s: string, p: nat) {
    forall q, m :: p <= q < |s| && OpensAt(s, q) && SkipSpace(s, q + 1) < m < |s| ==> !ClosesAt(s, m)
  }

  lemma {:induction false} MatchFromNone(s: string, p: nat)
    ensures MatchFrom(s, p).None? <==> NoArrayFrom(s, p)
    decreases |s| - p
  {
    if p < |s| {
      MatchFromNone(s, p + 1);
      if OpensAt(s, p) {
        var brace := SkipSpace(s, p + 1);
        if LastClose(s, brace + 1, |s|).None? {
          forall q, m | p <= q < |s| && OpensAt(s, q) && SkipSpace(s, q + 1) < m
            ensures !ClosesAt(s, m)
          {
            if p < q {
              LaterOpenLaterBrace(s, p, q);
            }
          }
        } else {
          var m := LastClose(s, brace + 1, |s|).value;
          assert !NoArrayFrom(s, p) by {
            assert p <= p < |s| && OpensAt(s, p) && SkipSpace(s, p + 1) < m && ClosesAt(s, m);
          }
        }
      }
    }
  }

  /** A match at start position p' means no `[ws{` before p' opens at all. */
  lemma {:induction false} MatchFromLeftmost(s: string, p: nat)
    requires MatchFrom(s, p).Some?
    ensures forall q :: p <= q < MatchFrom(s, p).value.start ==> !OpensAt(s, q)
    decreases |s| - p
  {
    var sp := MatchFrom(s, p).value;
    if sp.start != p {
      MatchFromLeftmost(s, p + 1);
    }
  }

  /** When the pattern matches, the match starts at the leftmost `[ws{` of the
      text and ends at the last `}ws]` after its brace; when it does not match,
      no `}ws]` follows any `[ws{`. */
  lemma {:induction false} ArrayMatchSpec(s: string)
    ensures ArrayMatch(s).Some? ==>
      var sp := ArrayMatch(s).value;
      && IsSpanOf(s, sp)
      && 0 <= sp.start < sp.end <= |s|
      && s[sp.start] == '[' && s[sp.end - 1] == ']'
      && (forall q :: 0 <= q < sp.start ==> !OpensAt(s, q))
      && (forall m :: sp.close < m < |s| ==> !ClosesAt(s, m))
    ensures ArrayMatch(s).None? <==> NoArrayFrom(s, 0)
  {
    MatchFromNone(s, 0);
    if ArrayMatch(s).Some? {
      MatchFromLeftmost(s, 0);
    }
  }

  /** How `\s*` runs inside a substring relate to the runs of the whole text. */
  lemma {:induction false} SkipSpaceSlice(t: string, a: nat, b: nat, i: nat)
    requires a <= b <= |t| && i <= b - a
    ensures SkipSpace(t[a..b], i) == (if SkipSpace(t, a + i) < b then SkipSpace(t, a + i) else b) - a
    decreases b - a - i
  {
    if i < b - a && IsSpace(t[a + i]) {
      SkipSpaceSlice(t, a, b, i + 1);
    }
  }

  /** A text that is one `[ws{ ... }ws]` from its first to its last character
      is matched whole. */
  lemma {:induction false} WholeArrayMatch(x: string, c: nat)
    requires OpensAt(x, 0) && SkipSpace(x, 1) < c
    requires ClosesAt(x, c) && SkipSpace(x, c + 1) == |x| - 1
    ensures ArrayMatch(x) == Some(ArraySpan(0, SkipSpace(x, 1), c, |x|))
  {
    var r := LastClose(x, SkipSpace(x, 1) + 1, |x|);
    forall m | c < m < |x| ensures !ClosesAt(x, m) {
      if m < |x| - 1 {
        assert IsSpace(x[m]);
      }
    }
    assert r == Some(c);
  }

  lemma {:induction false} OpensInSlice(t: string, a: nat, b: nat)
    requires OpensAt(t, a) && SkipSpace(t, a + 1) < b <= |t|
    ensures OpensAt(t[a..b], 0) && SkipSpace(t[a..b], 1) == SkipSpace(t, a + 1) - a
  {
    SkipSpaceSlice(t, a, b, 1);
  }

  lemma {:induction false} ClosesInSlice(t: string, a: nat, b: nat, m: nat)
    requires a <= m < b <= |t|
    ensures ClosesAt(t[a..b], m - a) ==> ClosesAt(t, m)
    ensures ClosesAt(t, m) && SkipSpace(t, m + 1) < b ==>
      ClosesAt(t[a..b], m - a) && SkipSpace(t[a..b], m - a + 1) == SkipSpace(t, m + 1) - a
  {
    SkipSpaceSlice(t, a, b, m - a + 1);
  }

  /** The text a match selects, taken on its own, is matched whole. */
  lemma {:induction false} SpanMatchesItself(t: string, sp: ArraySpan)
    requires IsSpanOf(t, sp)
    ensures sp.end <= |t|
    ensures var u := t[sp.start..sp.end];
      ArrayMatch(u).Some? && ArrayMatch(u).value.start == 0 && ArrayMatch(u).value.end == |u|
  {
    var a, b := sp.start, sp.end;
    OpensInSlice(t, a, b);
    ClosesInSlice(t, a, b, sp.close);
    WholeArrayMatch(t[a..b], sp.close - a);
  }

  // ---------------------------------------------------------------------------
  // The whole cleaning step and the parse chain
  // ---------------------------------------------------------------------------

  /** Lines 155-158: the text narrowed to the array match when there is one. */
  function Narrowed(t: string): (r: string)
    ensures |r| <= |t|
    ensures r == t || (|r| >= 2 && r[0] == '[' && r[|r| - 1] == ']')
  {
    match ArrayMatch(t)
    case Some(sp) => SpanShape(t, sp); t[sp.start..sp.end]
    case None => t
  }

  /** The text of the second parse: fences stripped, then narrowed. */
  function Cleaned(content: string): (r: string)
    ensures |r| <= |content| && IsTrimmed(r)
  {
    Narrowed(StripFences(content))
  }

  /** Narrowing yields the `[ ... ]` region of a match, or the text unchanged;
      it brings in no fence. */
  lemma {:induction false} NarrowedSpec(t: string)
    ensures NoFence(t) ==> NoFence(Narrowed(t))
    ensures ArrayMatch(t).Some? ==>
      var sp := ArrayMatch(t).value;
      && sp.start < sp.end <= |t|
      && Narrowed(t) == t[sp.start..sp.end]
      && |Narrowed(t)| >= 2
      && Narrowed(t)[0] == '[' && Narrowed(t)[|Narrowed(t)| - 1] == ']'
    ensures ArrayMatch(t).None? ==> Narrowed(t) == t
  {
    match ArrayMatch(t)
    case None =>
    case Some(sp) =>
      assert IsSpanOf(t, sp);
      SpanShape(t, sp);
  }

  /** The region a match selects is a `[ ... ]` text. */
  lemma {:induction false} SpanShape(t: string, sp: ArraySpan)
    requires IsSpanOf(t, sp)
    ensures sp.start < sp.end <= |t|
    ensures NoFence(t) ==> NoFence(t[sp.start..sp.end])
    ensures |t[sp.start..sp.end]| >= 2
    ensures t[sp.start..sp.end][0] == '[' && t[sp.start..sp.end][sp.end - sp.start - 1] == ']'
  {
    if NoFence(t) {
      NoFenceSlice(t, sp.start, sp.end);
    }
  }

  /** What cleaning leaves: no fences; when the array pattern matches, exactly
      the matched `[ ... ]` region of the fence-stripped text; otherwise that
      text unchanged. */
  lemma {:induction false} CleanedSpec(content: string)
    ensures NoFence(Cleaned(content))
    ensures ArrayMatch(StripFences(content)).Some? ==>
      var sp := ArrayMatch(StripFences(content)).value;
      && Cleaned(content) == StripFences(content)[sp.start..sp.end]
      && |Cleaned(content)| >= 2
      && Cleaned(content)[0] == '[' && Cleaned(content)[|Cleaned(content)| - 1] == ']'
    ensures ArrayMatch(StripFences(content)).None? ==> Cleaned(content) == StripFences(content)
  {
    StripFencesSpec(content);
    NarrowedSpec(StripFences(content));
  }

  /** Lines 149-158: cleanedContent is reassigned step by step. */
  method CleanContent(content: string) returns (cleaned: string)
    ensures cleaned == Cleaned(content)
  {
    cleaned := Trim(content);
    cleaned := StripTagged(cleaned);
    cleaned := StripBare(cleaned);
    cleaned := Trim(cleaned);
    var arrayMatch := ArrayMatch(cleaned);
    if arrayMatch.Some? {
      cleaned := cleaned[arrayMatch.value.start..arrayMatch.value.end];
    }
  }

  /** A trimmed text without fences is left as it is by a second round of
      fence stripping and narrowing. */
  lemma {:induction false} NarrowedIsClean(t: string)
    requires NoFence(t) && IsTrimmed(t)
    ensures StripFences(Narrowed(t)) == Narrowed(t)
    ensures Narrowed(Narrowed(t)) == Narrowed(t)
  {
    match ArrayMatch(t)
    case None =>
      StripFencesKeepsClean(t);
    case Some(sp) =>
      var u := t[sp.start..sp.end];
      assert Narrowed(t) == u;
      SpanShape(t, sp);
      assert IsTrimmed(u);
      StripFencesKeepsClean(u);
      SpanMatchesItself(t, sp);
      WholeNarrowed(u);
  }

  /** A text the pattern matches whole is its own narrowing. */
  lemma {:induction false} WholeNarrowed(u: string)
    requires ArrayMatch(u).Some? && ArrayMatch(u).value.start == 0 && ArrayMatch(u).value.end == |u|
    ensures Narrowed(u) == u
  {
    assert u[0..|u|] == u;
  }

  /** Cleaning a cleaned text changes nothing. */
  lemma {:induction false} CleanedIdempotent(content: string)
    ensures NoFence(Cleaned(content))
    ensures Cleaned(Cleaned(content)) == Cleaned(content)
  {
    StripFencesSpec(content);
    NarrowedSpec(StripFences(content));
    NarrowedIsClean(StripFences(content));
  }

  /** The value of the chain at lines 142-166: the raw parse when it succeeds,
      otherwise the parse of the cleaned text; None is the 500 reply. */
  function Normalized(content: string, parse: string -> Option<Json>): (r: Option<Json>)
    ensures r.None? <==> parse(content).None? && parse(Cleaned(content)).None?
    ensures r.Some? ==> r == parse(content) || r == parse(Cleaned(content))
  {
    match parse(content)
    case Some(v) => Some(v)
    case None => parse(Cleaned(content))
  }

  method NormalizeReply(content: string, parse: string -> Option<Json>) returns (questions: Option<Json>)
    ensures questions == Normalized(content, parse)
    ensures parse(content).Some? ==> questions == parse(content)
    ensures parse(content).None? ==> questions == parse(Cleaned(content))
  {
    questions := parse(content);
    if questions.None? {
      var cleaned := CleanContent(content);
      questions := parse(cleaned);
    }
  }

  /** The first replacement on a ```json-fenced text without inner fences
      leaves the text and the two line breaks around it. */
  lemma {:induction false} StripTaggedFenced(x: string)
    requires NoFence(x)
    ensures StripTagged("```json\n" + x + "\n```") == "\n" + x + "\n"
  {
    var fenced := "```json\n" + x + "\n```";
    assert fenced[0] == '`' && fenced[1] == '`' && fenced[2] == '`';
    assert fenced[3..7] == "json";
    assert fenced[7..] == ("\n" + x) + "\n```";
    assert NoFence("\n" + x) by {
      forall i | 0 <= i < |"\n" + x| ensures !FenceAt("\n" + x, i) {
        if i >= 1 { assert FenceAt("\n" + x, i) ==> FenceAt(x, i - 1); }
      }
    }
    StripTaggedKeepsPrefix("\n" + x, "\n```");
    assert StripTagged("```") == [];
    assert StripTagged("\n```") == "\n";
  }

  lemma {:induction false} NoFenceLines(x: string)
    requires NoFence(x)
    ensures NoFence("\n" + x + "\n")
  {
    var y := "\n" + x + "\n";
    forall i | 0 <= i < |y| ensures !FenceAt(y, i) {
      if 1 <= i && i + 3 <= |y| - 1 {
        assert FenceAt(y, i) ==> FenceAt(x, i - 1);
      }
    }
  }

  lemma {:induction false} TrimLines(x: string)
    requires x != [] && IsTrimmed(x)
    ensures Trim("\n" + x + "\n") == x
  {
    var y := "\n" + x + "\n";
    assert y[1..] == x + "\n";
    assert TrimStart(y) == TrimStart(x + "\n");
    assert TrimStart(x + "\n") == x + "\n";
    assert (x + "\n")[..|x|] == x;
    assert TrimEnd(x + "\n") == TrimEnd(x);
  }

  /** Fence stripping takes a trimmed, fence-free text back out of a ```json fence. */
  lemma {:induction false} StripFencesOfFenced(x: string)
    requires x != [] && IsTrimmed(x) && NoFence(x)
    ensures StripFences("```json\n" + x + "\n```") == x
  {
    var fenced := "```json\n" + x + "\n```";
    assert IsTrimmed(fenced) by {
      assert fenced[0] == '`' && fenced[|fenced| - 1] == '`';
    }
    TrimOfTrimmed(fenced);
    StripTaggedFenced(x);
    NoFenceLines(x);
    StripBareKeepsFenceless("\n" + x + "\n");
    TrimLines(x);
  }

  /** An array of objects wrapped in a ```json fence: cleaning recovers
      exactly the array text, so when the fenced reply fails the raw parse,
      the second parse sees the array text. */
  lemma {:induction false} FencedArrayRecovered(x: string, c: nat, parse: string -> Option<Json>)
    requires OpensAt(x, 0) && SkipSpace(x, 1) < c
    requires ClosesAt(x, c) && SkipSpace(x, c + 1) == |x| - 1
    requires NoFence(x)
    ensures Cleaned("```json\n" + x + "\n```") == x
    ensures parse("```json\n" + x + "\n```").None? ==>
      Normalized("```json\n" + x + "\n```", parse) == parse(x)
  {
    assert x[0] == '[' && x[|x| - 1] == ']';
    StripFencesOfFenced(x);
    WholeArrayMatch(x, c);
    assert x[0..|x|] == x;
  }
}
