/**
  Plain text from an HTML body: one left-to-right pass of the tag pattern leaves no complete tag, and
  the quote chain and the signature are cut at the opening of the tag that starts them.
 */
module StripHtml {
  import opened Text
  import opened Wrappers
  import opened Naming

  // ---------------------------------------------------------------- the tag pattern

  /** '<', one or more characters other than '>', and '>' start at i. */
  ghost predicate TagAt(s: string, i: nat) {
    exists j :: TagSpan(s, i, j)
  }

  ghost predicate TagSpan(s: string, i: int, j: int) {
    0 <= i && i + 1 < j < |s| && s[i] == '<' && s[j] == '>' && forall k :: i < k < j ==> s[k] != '>'
  }

  ghost predicate HasTag(s: string) {
    exists i :: 0 <= i < |s| && TagAt(s, i)
  }

  /** Position of the first '>', or |s|. */
  function FirstClose(s: string): (n: nat)
    ensures n <= |s| && (n < |s| ==> s[n] == '>')
    ensures forall k :: 0 <= k < n ==> s[k] != '>'
  {
    if s == "" || s[0] == '>' then 0 else 1 + FirstClose(s[1..])
  }

  /** _TAG_RE.sub(" ", s): the leftmost match is replaced, and the scan goes on behind it. */
  function StripTags(s: string): string
    decreases |s|
  {
    if s == "" then ""
    else
      var close := FirstClose(s);
      if s[0] == '<' && 1 < close < |s| then " " + StripTags(s[close + 1..])
      else [s[0]] + StripTags(s[1..])
  }

  lemma MatchIsTag(s: string)
    requires s != ""
    ensures TagAt(s, 0) <==> s[0] == '<' && 1 < FirstClose(s) < |s|
  {
    if TagAt(s, 0) {
      var j :| TagSpan(s, 0, j);
      assert FirstClose(s) == j;
    }
    if s[0] == '<' && 1 < FirstClose(s) < |s| {
      assert TagSpan(s, 0, FirstClose(s));
    }
  }

  lemma SpanBehindOne(c: char, s: string, i: int, j: int)
    requires i >= 0
    ensures TagSpan([c] + s, i + 1, j + 1) <==> TagSpan(s, i, j)
  {
    var t := [c] + s;
    assert forall k :: 0 <= k < |s| ==> t[k + 1] == s[k];
    assert forall k :: 0 < k < |t| ==> s[k - 1] == t[k];
  }

  lemma TagBehindOne(c: char, s: string, i: nat)
    ensures TagAt([c] + s, i + 1) <==> TagAt(s, i)
  {
    if TagAt([c] + s, i + 1) {
      var j :| TagSpan([c] + s, i + 1, j);
      SpanBehindOne(c, s, i, j - 1);
    }
    if TagAt(s, i) {
      var j :| TagSpan(s, i, j);
      SpanBehindOne(c, s, i, j);
    }
  }

  lemma TagsBehindOne(c: char, s: string)
    requires !HasTag(s) && !TagAt([c] + s, 0)
    ensures !HasTag([c] + s)
  {
    forall i | 0 <= i < |[c] + s| ensures !TagAt([c] + s, i) {
      if i > 0 {
        TagBehindOne(c, s, i - 1);
      }
    }
  }

  lemma {:induction false} TaglessIsFixed(s: string)
    requires !HasTag(s)
    ensures StripTags(s) == s
    decreases |s|
  {
    if s != "" {
      MatchIsTag(s);
      assert s == [s[0]] + s[1..];
      assert !HasTag(s[1..]) by {
        forall i | 0 <= i < |s[1..]| ensures !TagAt(s[1..], i) {
          TagBehindOne(s[0], s[1..], i);
        }
      }
      TaglessIsFixed(s[1..]);
    }
  }

  lemma NoTagAtHead(c: char, rest: string)
    requires c != '<' || rest == "" || rest[0] == '>' || forall k :: 0 <= k < |rest| ==> rest[k] != '>'
    ensures !TagAt([c] + rest, 0)
  {
    var t := [c] + rest;
    assert forall k :: 0 < k < |t| ==> t[k] == rest[k - 1];
    if rest != "" && rest[0] == '>' {
      assert t[0 + 1] == '>';
    }
  }

  /** One pass leaves no complete tag behind, whatever it joins together. */
  lemma {:induction false} OnePassLeavesNoTag(s: string)
    ensures !HasTag(StripTags(s))
    decreases |s|
  {
    if s != "" {
      MatchIsTag(s);
      var close := FirstClose(s);
      if TagAt(s, 0) {
        OnePassLeavesNoTag(s[close + 1..]);
        TagsBehindOne(' ', StripTags(s[close + 1..]));
      } else {
        var rest := StripTags(s[1..]);
        OnePassLeavesNoTag(s[1..]);
        if s[0] == '<' && close == |s| {
          assert forall j :: 0 <= j < |s[1..]| ==> s[1..][j] == s[1 + j];
          TaglessIsFixed(s[1..]);
        } else if s[0] == '<' {
          assert close == 1 && s[1] == '>';
          assert rest[0] == '>';
        }
        NoTagAtHead(s[0], rest);
        TagsBehindOne(s[0], rest);
      }
    }
  }

  /** A pass is a projection: doing it again changes nothing. */
  lemma SecondPassIsIdle(s: string)
    ensures StripTags(StripTags(s)) == StripTags(s)
  {
    OnePassLeavesNoTag(s);
    TaglessIsFixed(StripTags(s));
  }

  lemma LeadingTagBecomesSpace(inside: string, after: string)
    requires inside != "" && forall k :: 0 <= k < |inside| ==> inside[k] != '>'
    ensures StripTags("<" + inside + ">" + after) == " " + StripTags(after)
  {
    var s := "<" + inside + ">" + after;
    var close := 1 + |inside|;
    assert s[0] == '<' && s[close] == '>' && forall k :: 0 < k < close ==> s[k] == inside[k - 1];
    assert FirstClose(s) == close;
    assert s[close + 1..] == after;
  }

  lemma TagOfSlice(s: string, lo: nat, hi: nat, i: nat)
    requires lo <= hi <= |s|
    ensures TagAt(s[lo..hi], i) ==> TagAt(s, lo + i)
  {
    var t := s[lo..hi];
    if TagAt(t, i) {
      var j :| TagSpan(t, i, j);
      assert forall k :: lo <= k < hi ==> s[k] == t[k - lo];
      assert TagSpan(s, lo + i, lo + j);
    }
  }

  /** A slice of a text without tags has none either. */
  lemma SliceOfTagless(s: string, lo: nat, hi: nat)
    requires lo <= hi <= |s| && !HasTag(s)
    ensures !HasTag(s[lo..hi])
  {
    forall i | 0 <= i < |s[lo..hi]| ensures !TagAt(s[lo..hi], i) {
      TagOfSlice(s, lo, hi, i);
    }
  }

  lemma {:induction false} TrimmedIsTagless(s: string)
    requires !HasTag(s)
    ensures !HasTag(Strip(s))
    decreases |s|
  {
    if s != "" {
      if IsSpace(s[0]) {
        SliceOfTagless(s, 1, |s|);
        assert s[1..|s|] == s[1..];
        TrimmedIsTagless(s[1..]);
      } else if Strip(s) != s {
        SliceOfTagless(s, 0, |s| - 1);
        assert s[0..|s| - 1] == s[..|s| - 1];
        TrimmedIsTagless(s[..|s| - 1]);
      }
    }
  }

  // ---------------------------------------------------------------- where the kept text ends

  /** A literal at i, ignoring case. */
  predicate LiteralAt(s: string, i: nat, literal: string) {
    i + |literal| <= |s| && forall k :: 0 <= k < |literal| ==> LowerChar(s[i + k]) == LowerChar(literal[k])
  }

  /** class=" and, before the next double quote, the word. */
  predicate ClassAt(s: string, i: nat, word: string) {
    && LiteralAt(s, i, "class=\"")
    && exists j :: i + 7 <= j <= |s| && LiteralAt(s, j, word) && forall k :: i + 7 <= k < j ==> s[k] != '"'
  }

  predicate QuoteAt(s: string, i: nat) {
    LiteralAt(s, i, "id=\"divRplyFwdMsg\"") || ClassAt(s, i, "gmail_quote") || LiteralAt(s, i, "<blockquote")
  }

  predicate SignatureAt(s: string, i: nat) {
    LiteralAt(s, i, "data-smartmail=\"gmail_signature\"") || ClassAt(s, i, "gmail_signature")
  }

  /** The start of the first match at or behind `from`, as re.search finds it. */
  function Search(s: string, at: (string, nat) -> bool, from: nat): (r: Option<nat>)
    requires from <= |s|
    ensures r == None ==> forall i: nat :: from <= i < |s| ==> !at(s, i)
    ensures r.Some? ==> from <= r.value < |s| && at(s, r.value) && forall i: nat :: from <= i < r.value ==> !at(s, i)
    decreases |s| - from
  {
    if from == |s| then None else if at(s, from) then Some(from) else Search(s, at, from + 1)
  }

  /** content.rfind("<", 0, end) */
  function LastOpen(s: string, end: nat): (r: Option<nat>)
    requires end <= |s|
    ensures r == None ==> forall k :: 0 <= k < end ==> s[k] != '<'
    ensures r.Some? ==> r.value < end && s[r.value] == '<' && forall k :: r.value < k < end ==> s[k] != '<'
  {
    if end == 0 then None else if s[end - 1] == '<' then Some(end - 1) else LastOpen(s, end - 1)
  }

  function CutBefore(s: string, start: nat): (n: nat)
    requires start <= |s|
    ensures n <= start
  {
    var open := LastOpen(s, start);
    if open.Some? then open.value else start
  }

  const IS_QUOTE: (string, nat) -> bool := QuoteAt
  const IS_SIGNATURE: (string, nat) -> bool := SignatureAt

  function CutFor(s: string, at: (string, nat) -> bool): (n: nat)
    ensures n <= |s|
  {
    var m := Search(s, at, 0);
    if m.Some? then CutBefore(s, m.value) else |s|
  }

  /** Where the kept content ends. */
  function Cut(s: string): (n: nat)
    ensures n <= |s|
  {
    var (quote, signature) := (CutFor(s, IS_QUOTE), CutFor(s, IS_SIGNATURE));
    if quote <= signature then quote else signature
  }

  // ---------------------------------------------------------------- the markers and the cut, in their own words

  lemma LiteralIff(s: string, i: nat, literal: string)
    requires i <= |s|
    ensures LiteralAt(s, i, literal) <==> LowerText(literal) <= LowerText(s[i..])
  {
    var (t, low) := (LowerText(s[i..]), LowerText(literal));
    assert forall k :: 0 <= k < |s| - i ==> t[k] == LowerChar(s[i + k]);
    if low <= t {
      assert forall k :: 0 <= k < |literal| ==> LowerChar(s[i + k]) == t[k] == low[k] == LowerChar(literal[k]);
    }
    if LiteralAt(s, i, literal) {
      assert forall k :: 0 <= k < |literal| ==> t[k] == LowerChar(s[i + k]) == low[k];
    }
  }

  /** A text that starts with class=" and has the word before the next double quote. */
  ghost predicate StartsWithClass(text: string, word: string) {
    exists inside :: "class=\"" + inside + word <= text && '"' !in inside
  }

  lemma ClassStarts(s: string, i: nat, word: string)
    requires i <= |s| && LowerText(word) == word && ClassAt(s, i, word)
    ensures StartsWithClass(LowerText(s[i..]), word)
  {
    var t := LowerText(s[i..]);
    assert forall k :: 0 <= k < |t| ==> t[k] == LowerChar(s[i + k]);
    assert LowerText("class=\"") == "class=\"";
    LiteralIff(s, i, "class=\"");
    hide LiteralAt, LowerText;
    var j :| i + 7 <= j <= |s| && LiteralAt(s, j, word) && forall k :: i + 7 <= k < j ==> s[k] != '"';
    LiteralIff(s, j, word);
    LowerTextBehind(s, i, j);
    var inside := t[7..j - i];
    assert forall k :: 0 <= k < |inside| ==> inside[k] == LowerChar(s[i + 7 + k]);
    assert t[..j - i] == "class=\"" + inside && word <= t[j - i..];
    assert "class=\"" + inside + word <= t[..j - i] + t[j - i..] == t;
  }

  lemma StartsClass(s: string, i: nat, word: string)
    requires i <= |s| && LowerText(word) == word && StartsWithClass(LowerText(s[i..]), word)
    ensures ClassAt(s, i, word)
  {
    var t := LowerText(s[i..]);
    assert forall k :: 0 <= k < |t| ==> t[k] == LowerChar(s[i + k]);
    assert LowerText("class=\"") == "class=\"";
    LiteralIff(s, i, "class=\"");
    hide LiteralAt, LowerText;
    var inside :| "class=\"" + inside + word <= t && '"' !in inside;
    var j := i + 7 + |inside|;
    assert "class=\"" <= t && t[7..j - i] == inside;
    LowerTextBehind(s, i, j);
    LiteralIff(s, j, word);
    assert word <= t[j - i..];
    forall k | i + 7 <= k < j ensures s[k] != '"' {
      assert t[k - i] == inside[k - i - 7];
    }
  }

  lemma ClassIff(s: string, i: nat, word: string)
    requires i <= |s| && LowerText(word) == word
    ensures ClassAt(s, i, word) <==> StartsWithClass(LowerText(s[i..]), word)
  {
    hide ClassAt, StartsWithClass;
    if ClassAt(s, i, word) {
      ClassStarts(s, i, word);
    }
    if StartsWithClass(LowerText(s[i..]), word) {
      StartsClass(s, i, word);
    }
  }

  lemma LowerTextBehind(s: string, i: nat, j: nat)
    requires i <= j <= |s|
    ensures LowerText(s[i..])[j - i..] == LowerText(s[j..])
  {
  }

  /** A quote starts with Outlook's divider, Gmail's class or a block quote, in whatever case. */
  lemma QuoteIff(s: string, i: nat)
    requires i <= |s|
    ensures var t := LowerText(s[i..]);
      QuoteAt(s, i) <==>
        "id=\"divrplyfwdmsg\"" <= t || StartsWithClass(t, "gmail_quote") || "<blockquote" <= t
  {
    assert LowerText("id=\"divRplyFwdMsg\"") == "id=\"divrplyfwdmsg\"";
    assert LowerText("<blockquote") == "<blockquote" && LowerText("gmail_quote") == "gmail_quote";
    hide LowerText, LiteralAt, ClassAt, StartsWithClass;
    LiteralIff(s, i, "id=\"divRplyFwdMsg\"");
    LiteralIff(s, i, "<blockquote");
    ClassIff(s, i, "gmail_quote");
  }

  /** A signature starts with Gmail's attribute or class. */
  lemma SignatureIff(s: string, i: nat)
    requires i <= |s|
    ensures var t := LowerText(s[i..]);
      SignatureAt(s, i) <==> "data-smartmail=\"gmail_signature\"" <= t || StartsWithClass(t, "gmail_signature")
  {
    assert LowerText("data-smartmail=\"gmail_signature\"") == "data-smartmail=\"gmail_signature\"";
    assert LowerText("gmail_signature") == "gmail_signature";
    hide LowerText, LiteralAt, ClassAt, StartsWithClass;
    LiteralIff(s, i, "data-smartmail=\"gmail_signature\"");
    ClassIff(s, i, "gmail_signature");
  }

  /** The first of the places where a text has a marker. */
  ghost predicate IsFirstAt(places: iset<nat>, m: nat) {
    m in places && forall i :: i in places ==> m <= i
  }

  /** The last '<' before m, or m when there is none. */
  ghost predicate IsWalkBack(s: string, m: nat, n: nat)
    requires m <= |s|
  {
    n <= m && (n < m ==> s[n] == '<') && forall k :: (if n < m then n < k else 0 <= k) && k < m ==> s[k] != '<'
  }

  ghost predicate IsCutFor(s: string, places: iset<nat>, n: nat) {
    if places == iset{} then n == |s|
    else exists m: nat :: IsFirstAt(places, m) && m <= |s| && IsWalkBack(s, m, n)
  }

  /** The earlier of the cut for the first quote and the cut for the first signature. */
  ghost predicate IsCut(s: string, n: nat) {
    var quotes := iset i: nat | i < |s| && QuoteAt(s, i);
    var signatures := iset i: nat | i < |s| && SignatureAt(s, i);
    || (IsCutFor(s, quotes, n) && exists later: nat :: n <= later && IsCutFor(s, signatures, later))
    || (IsCutFor(s, signatures, n) && exists later: nat :: n <= later && IsCutFor(s, quotes, later))
  }

  lemma CutForIs(s: string, at: (string, nat) -> bool)
    ensures IsCutFor(s, (iset i: nat | i < |s| && at(s, i)), CutFor(s, at))
  {
    var m := Search(s, at, 0);
    var places := iset i: nat | i < |s| && at(s, i);
    if m.Some? {
      assert IsFirstAt(places, m.value) && IsWalkBack(s, m.value, CutFor(s, at));
    } else {
      assert places == iset{};
    }
  }

  lemma CutIs(s: string)
    ensures IsCut(s, Cut(s))
  {
    CutForIs(s, IS_QUOTE);
    CutForIs(s, IS_SIGNATURE);
    hide QuoteAt, SignatureAt, IsCutFor, CutFor;
    assert (iset i: nat | i < |s| && IS_QUOTE(s, i)) == (iset i: nat | i < |s| && QuoteAt(s, i));
    assert (iset i: nat | i < |s| && IS_SIGNATURE(s, i)) == (iset i: nat | i < |s| && SignatureAt(s, i));
  }

  lemma LiteralInPrefix(s: string, n: nat, i: nat, literal: string)
    requires n <= |s| && LiteralAt(s[..n], i, literal)
    ensures LiteralAt(s, i, literal)
  {
    forall k | 0 <= k < |literal| ensures LowerChar(s[i + k]) == LowerChar(literal[k]) {
      assert s[..n][i + k] == s[i + k];
    }
  }

  lemma ClassInPrefix(s: string, n: nat, i: nat, word: string)
    requires n <= |s| && ClassAt(s[..n], i, word)
    ensures ClassAt(s, i, word)
  {
    LiteralInPrefix(s, n, i, "class=\"");
    var j :| i + 7 <= j <= n && LiteralAt(s[..n], j, word) && forall k :: i + 7 <= k < j ==> s[..n][k] != '"';
    LiteralInPrefix(s, n, j, word);
    assert forall k :: i + 7 <= k < j ==> s[..n][k] == s[k];
  }

  lemma MarkerInPrefix(s: string, n: nat, i: nat)
    requires n <= |s|
    ensures QuoteAt(s[..n], i) ==> i < n && QuoteAt(s, i)
    ensures SignatureAt(s[..n], i) ==> i < n && SignatureAt(s, i)
  {
    var quote, bare, data := "id=\"divRplyFwdMsg\"", "<blockquote", "data-smartmail=\"gmail_signature\"";
    if LiteralAt(s[..n], i, quote) {
      LiteralInPrefix(s, n, i, quote);
    }
    if LiteralAt(s[..n], i, bare) {
      LiteralInPrefix(s, n, i, bare);
    }
    if LiteralAt(s[..n], i, data) {
      LiteralInPrefix(s, n, i, data);
    }
    if ClassAt(s[..n], i, "gmail_quote") {
      ClassInPrefix(s, n, i, "gmail_quote");
    }
    if ClassAt(s[..n], i, "gmail_signature") {
      ClassInPrefix(s, n, i, "gmail_signature");
    }
  }

  /** The kept content contains no complete quote or signature marker. */
  lemma KeptHasNoMarker(s: string, i: nat)
    ensures !QuoteAt(s[..Cut(s)], i) && !SignatureAt(s[..Cut(s)], i)
  {
    MarkerInPrefix(s, Cut(s), i);
    assert IS_QUOTE(s, i) == QuoteAt(s, i) && IS_SIGNATURE(s, i) == SignatureAt(s, i);
  }

  // ---------------------------------------------------------------- the tag a marker stands in

  /** A '<' at i that no '>' closes before m. */
  predicate StillOpen(s: string, i: nat, m: nat)
    requires m <= |s|
  {
    i < m && s[i] == '<' && forall k :: i < k < m ==> s[k] != '>'
  }

  /** The first '<' still open at m, at or behind `from`; m if there is none. */
  function FirstOpen(s: string, from: nat, m: nat): (n: nat)
    requires from <= m <= |s|
    ensures from <= n <= m && (n < m ==> StillOpen(s, n, m)) && forall i: nat :: from <= i < n ==> !StillOpen(s, i, m)
    decreases m - from
  {
    if from == m || StillOpen(s, from, m) then from else FirstOpen(s, from + 1, m)
  }

  /** Where the tag begins that position m stands in: the first '<' still open there, or m outside any tag. */
  function OwnStart(s: string, m: nat): (n: nat)
    requires m <= |s|
    ensures n <= m && (n < m ==> StillOpen(s, n, m)) && forall i: nat :: i < n ==> !StillOpen(s, i, m)
  {
    FirstOpen(s, 0, m)
  }

  lemma OpenBehind(s: string, step: nat, i: nat, n: nat)
    requires step <= n <= |s|
    ensures StillOpen(s[step..], i, n - step) <==> StillOpen(s, step + i, n)
  {
    assert forall k :: 0 <= k < n - step ==> s[step..][k] == s[step + k];
    assert forall k :: step <= k < n ==> s[k] == s[step..][k - step];
  }

  /** How much of a non-empty text the pass deals with at once, and what it makes of that. */
  function Step(s: string): (step: nat)
    requires s != ""
    ensures 0 < step <= |s|
  {
    if s[0] == '<' && 1 < FirstClose(s) < |s| then FirstClose(s) + 1 else 1
  }

  function StepText(s: string): string
    requires s != ""
  {
    if s[0] == '<' && 1 < FirstClose(s) < |s| then " " else [s[0]]
  }

  lemma PassIsStepwise(s: string)
    requires s != ""
    ensures StripTags(s) == StepText(s) + StripTags(s[Step(s)..])
  {
  }

  /** A tag at the head that is not open at n is no different in the prefix. */
  lemma StepInPrefix(s: string, n: nat)
    requires 0 < n <= |s| && !StillOpen(s, 0, n)
    ensures s[..n] != "" && Step(s[..n]) == Step(s) <= n && StepText(s[..n]) == StepText(s)
  {
    assert s[..n][0] == s[0];
    if s[0] == '<' {
      var k :| 0 < k < n && s[k] == '>';
      assert s[..n][k] == s[k];
      assert FirstClose(s) == FirstClose(s[..n]);
    }
  }

  /** Where no tag is open, a pass works on the two sides separately. */
  lemma {:induction false} PassSplits(s: string, n: nat)
    requires n <= |s| && forall i: nat :: i < n ==> !StillOpen(s, i, n)
    ensures StripTags(s) == StripTags(s[..n]) + StripTags(s[n..])
    decreases |s|
  {
    hide StillOpen, StripTags, Step, StepText;
    if n == 0 {
      assert s[..n] == "" && s[n..] == s;
      PassOfNothing();
    } else {
      var step := Step(s);
      StepInPrefix(s, n);
      var (t, rest) := (s[step..], n - step);
      forall i: nat | i < rest ensures !StillOpen(t, i, rest) {
        OpenBehind(s, step, i, n);
      }
      PassSplits(t, rest);
      PassIsStepwise(s);
      PassIsStepwise(s[..n]);
      assert s[..n][step..] == t[..rest] && s[n..] == t[rest..];
    }
  }

  lemma PassOfNothing()
    ensures StripTags("") == ""
  {
  }

  lemma FirstCloseBehind(s: string, n: nat, close: nat)
    requires n < close < |s| && s[n] != '>' && s[close] == '>' && forall k :: n < k < close ==> s[k] != '>'
    ensures FirstClose(s[n..]) == close - n
  {
    var t := s[n..];
    assert t[close - n] == '>' && forall k :: 0 <= k < close - n ==> t[k] == s[n + k];
  }

  lemma TagAtIsReplaced(s: string, n: nat, close: nat)
    requires n + 1 < close < |s| && s[n] == '<' && s[close] == '>' && forall k :: n < k < close ==> s[k] != '>'
    ensures StripTags(s[n..]) == " " + StripTags(s[close + 1..])
  {
    FirstCloseBehind(s, n, close);
    hide FirstClose;
    assert s[n..][close - n + 1..] == s[close + 1..];
  }

  /** Nothing is open where the own tag begins. */
  lemma NothingOpenAtOwnStart(s: string, m: nat, i: nat)
    requires m <= |s| && i < OwnStart(s, m)
    ensures !StillOpen(s, i, OwnStart(s, m))
  {
    assert StillOpen(s, i, OwnStart(s, m)) ==> StillOpen(s, i, m);
  }

  /** The pass agrees about where the tag begins: it replaces the text from there to the next '>'. */
  lemma OwnTagIsReplaced(s: string, m: nat, close: nat)
    requires m <= close < |s| && s[close] == '>' && forall k :: m <= k < close ==> s[k] != '>'
    requires OwnStart(s, m) < m && OwnStart(s, m) + 1 < close
    ensures StripTags(s) == StripTags(s[..OwnStart(s, m)]) + (" " + StripTags(s[close + 1..]))
  {
    var n := OwnStart(s, m);
    forall i: nat | i < n ensures !StillOpen(s, i, n) {
      NothingOpenAtOwnStart(s, m, i);
    }
    assert s[n] == '<' && forall k :: n < k < close ==> s[k] != '>';
    hide StripTags, OwnStart, StillOpen, FirstClose;
    PassSplits(s, n);
    TagAtIsReplaced(s, n, close);
  }

  /** What a pass does to text, a tag and what follows. */
  lemma TagBecomesSpace(before: string, inside: string, after: string)
    requires forall k :: 0 <= k < |before| ==> before[k] != '<'
    requires inside != "" && forall k :: 0 <= k < |inside| ==> inside[k] != '>'
    ensures StripTags(before + ("<" + inside + ">" + after)) == before + (" " + StripTags(after))
  {
    var rest := "<" + inside + ">" + after;
    var (s, n) := (before + rest, |before|);
    assert forall k :: 0 <= k < n ==> s[k] == before[k];
    hide StripTags;
    PassSplits(s, n);
    assert s[..n] == before && s[n..] == rest;
    TaglessIsFixed(before);
    LeadingTagBecomesSpace(inside, after);
  }

  /** A cut at the own start is clean: the text kept is the text in front of the marker's tag, and nothing else. */
  lemma CutAtOwnStartIsClean(s: string, m: nat)
    requires m <= |s| && CutBefore(s, m) == OwnStart(s, m)
    ensures var cut := CutBefore(s, m);
      StripTags(s) == StripTags(s[..cut]) + StripTags(s[cut..])
  {
    var n := OwnStart(s, m);
    forall i: nat | i < n ensures !StillOpen(s, i, n) {
      NothingOpenAtOwnStart(s, m, i);
    }
    hide StripTags;
    PassSplits(s, n);
  }

  /** A '<' still open at m is the only one. */
  ghost predicate OneOpen(s: string, m: nat)
    requires m <= |s|
  {
    exists i: nat :: StillOpen(s, i, m) && forall j: nat :: StillOpen(s, j, m) ==> j == i
  }

  ghost predicate SomeOpen(s: string, m: nat)
    requires m <= |s|
  {
    exists i: nat :: StillOpen(s, i, m)
  }

  lemma LastOpenIsStillOpen(s: string, m: nat, i: nat)
    requires m <= |s| && StillOpen(s, i, m)
    ensures LastOpen(s, m).Some? && StillOpen(s, LastOpen(s, m).value, m) && i <= LastOpen(s, m).value
  {
  }

  /**
    The walk back from a marker at m ends where the marker's own tag begins if and only if no '<' precedes
    the marker at all, or exactly one has since the last '>'. With none since then, but one before, the walk
    goes back too far, into what precedes the last '>'; with more than one, it stops inside the tag.
   */
  lemma CutIsOwnStartIff(s: string, m: nat)
    requires m <= |s|
    ensures CutBefore(s, m) == OwnStart(s, m) <==> (forall k :: 0 <= k < m ==> s[k] != '<') || OneOpen(s, m)
    ensures CutBefore(s, m) < OwnStart(s, m) <==> (exists k :: 0 <= k < m && s[k] == '<') && !SomeOpen(s, m)
    ensures CutBefore(s, m) > OwnStart(s, m) <==> SomeOpen(s, m) && !OneOpen(s, m)
  {
    var (n, last) := (OwnStart(s, m), LastOpen(s, m));
    if n < m {
      LastOpenIsStillOpen(s, m, n);
      forall j: nat | StillOpen(s, j, m) ensures n <= j <= last.value {
        LastOpenIsStillOpen(s, m, j);
      }
      hide StillOpen;
      assert OneOpen(s, m) <==> n == last.value;
    } else {
      assert !SomeOpen(s, m);
    }
  }

  /** When the walk stops inside the tag, the tag's opening survives the pass as text. */
  lemma BrokenTagSurvives(s: string, m: nat)
    requires m <= |s| && CutBefore(s, m) > OwnStart(s, m)
    ensures var (n, cut) := (OwnStart(s, m), CutBefore(s, m));
      StripTags(s[..cut]) == StripTags(s[..n]) + s[n..cut] && s[n] == '<'
  {
    var (n, cut) := (OwnStart(s, m), CutBefore(s, m));
    var kept := s[..cut];
    assert forall k :: 0 <= k < cut ==> kept[k] == s[k];
    forall i: nat | i < n ensures !StillOpen(kept, i, n) {
      NothingOpenAtOwnStart(s, m, i);
    }
    hide StripTags;
    PassSplits(kept, n);
    assert kept[..n] == s[..n] && kept[n..] == s[n..cut];
    assert forall k :: 0 <= k < cut - n ==> s[n..cut][k] == s[n + k];
    TaglessIsFixed(s[n..cut]);
  }

  predicate Begins(x: char, y: char) {
    (x == 'i' && y == 'd') || (x == 'c' && y == 'l') || (x == '<' && y == 'b')
  }

  /** A quote marker begins with "id", "cl" or "<b". */
  lemma QuoteBegins(s: string, i: nat)
    requires QuoteAt(s, i)
    ensures i + 1 < |s|
    ensures Begins(LowerChar(s[i]), LowerChar(s[i + 1]))
  {
    assert "id=\"divRplyFwdMsg\""[0] == 'i' && "id=\"divRplyFwdMsg\""[1] == 'd';
    assert "class=\""[0] == 'c' && "class=\""[1] == 'l';
    assert "<blockquote"[0] == '<' && "<blockquote"[1] == 'b';
  }

  /** No marker begins at any of the first m positions. */
  ghost predicate NoneBegins(s: string, m: nat)
    requires m < |s|
  {
    forall i :: 0 <= i < m ==> !Begins(LowerChar(s[i]), LowerChar(s[i + 1]))
  }

  lemma QuoteCutIs(s: string, m: nat, n: nat)
    requires m < |s| && QuoteAt(s, m) && NoneBegins(s, m)
    requires n < m && s[n] == '<' && forall k :: n < k < m ==> s[k] != '<'
    ensures CutFor(s, IS_QUOTE) == n == CutBefore(s, m)
  {
    hide QuoteAt;
    forall i: nat | i < m ensures !QuoteAt(s, i) {
      if QuoteAt(s, i) {
        QuoteBegins(s, i);
      }
    }
    assert IS_QUOTE(s, m) && forall i: nat :: i < m ==> !IS_QUOTE(s, i);
    assert Search(s, IS_QUOTE, 0) == Some(m);
  }

  const HI := "<p>Hi<blockquote>"

  lemma QuoteInHi()
    ensures QuoteAt(HI, 5) && NoneBegins(HI, 5)
  {
    assert HI[5..16] == "<blockquote";
  }

  /** "Hi" is not quoted, and yet nothing is kept of this body. */
  lemma TextBeforeBlockquoteIsLost()
    ensures Cut("<p>Hi<blockquote>") == 0 && OwnStart("<p>Hi<blockquote>", 5) == 5
  {
    QuoteInHi();
    hide QuoteAt;
    QuoteCutIs(HI, 5, 0);
    assert HI[2] == '>';
  }

  const MARKER := "id=\"divRplyFwdMsg\""

  lemma MarkerBehind(before: string, after: string)
    requires forall i :: 0 <= i < |before| ==>
      !Begins(LowerChar(before[i]), if i + 1 < |before| then LowerChar(before[i + 1]) else 'i')
    ensures var s := before + (MARKER + after);
      |before| < |s| && QuoteAt(s, |before|) && NoneBegins(s, |before|)
  {
    var (rest, m) := (MARKER + after, |before|);
    assert rest[0] == MARKER[0] == 'i' && forall k :: 0 <= k < |MARKER| ==> rest[k] == MARKER[k];
    var s := before + rest;
    assert LiteralAt(s, m, MARKER) by {
      assert forall k :: 0 <= k < |MARKER| ==> s[m + k] == rest[k];
    }
  }

  /** Nor of this one, whose marker is text behind a closed tag. */
  lemma TextBeforeTextMarkerIsLost()
    ensures Cut("<p>Hi " + (MARKER + "")) == 0 && OwnStart("<p>Hi " + (MARKER + ""), 6) == 6
  {
    var (before, s) := ("<p>Hi ", "<p>Hi " + (MARKER + ""));
    MarkerBehind(before, "");
    assert forall k :: 0 <= k < 6 ==> s[k] == before[k];
    assert before[0] == '<' && before[2] == '>' && forall k :: 0 < k < 6 ==> before[k] != '<';
    hide QuoteAt, NoneBegins;
    QuoteCutIs(s, 6, 0);
  }

  const SPLIT := "<a x=\"<\" "

  /** Of this one the beginning of the tag is kept, because an attribute before the marker contains '<'. */
  lemma AttributeSplitsTag()
    ensures var s := "<a x=\"<\" " + (MARKER + ">");
      CutFor(s, IS_QUOTE) == 6 && OwnStart(s, 9) == 0 && StripTags(s[..6]) == "<a x=\""
  {
    var s := SPLIT + (MARKER + ">");
    assert SPLIT[0] == '<' && SPLIT[6] == '<' && forall k :: 0 <= k < 9 ==> SPLIT[k] != '>';
    assert SPLIT[7] == '"' && SPLIT[8] == ' ';
    MarkerBehind(SPLIT, ">");
    assert forall k :: 0 <= k < 9 ==> s[k] == SPLIT[k];
    assert StillOpen(s, 0, 9);
    hide QuoteAt, NoneBegins, StripTags, CutBefore, CutFor;
    QuoteCutIs(s, 9, 6);
    BrokenTagSurvives(s, 9);
    PassOfNothing();
    assert s[..0] == "" && s[0..6] == s[..6] == SPLIT[..6];
  }

  // ---------------------------------------------------------------- the whole body

  /**
    What is left abstract: the garble clean-up, the style and script blocks, entities, and the plain-text quote
    pattern.
   */
  datatype Filters = Filters(
    clean: string -> string,
    dropBlocks: string -> string,
    unescape: string -> string,
    textQuote: string -> Option<nat>)

  /** The slice of _strip_html up to the least of the cut points, when there is any. */
  method Kept(content: string) returns (kept: string)
    ensures exists cut: nat :: cut <= |content| && IsCut(content, cut) && kept == content[..cut]
    ensures kept == content[..Cut(content)]
  {
    hide IsCut;
    CutIs(content);
    var cutPoints: seq<nat> := [];
    var matches := [Search(content, IS_QUOTE, 0), Search(content, IS_SIGNATURE, 0)];
    for n := 0 to 2
      invariant forall c :: c in cutPoints ==> c <= |content|
      invariant cutPoints == (if n > 0 && matches[0].Some? then [CutBefore(content, matches[0].value)] else [])
        + (if n > 1 && matches[1].Some? then [CutBefore(content, matches[1].value)] else [])
    {
      if matches[n].Some? {
        cutPoints := cutPoints + [CutBefore(content, matches[n].value)];
      }
    }
    if cutPoints != [] {
      var least := if |cutPoints| == 1 || cutPoints[0] <= cutPoints[1] then cutPoints[0] else cutPoints[1];
      assert least == Cut(content);
      return content[..least];
    }
    assert content[..Cut(content)] == content;
    return content;
  }

  /**
    _strip_html. For HTML the text is made from the cleaned content up to its earliest cut alone: scripts
    go, one pass over the tags, entities, and a second pass. It has no complete tag.
   */
  method StripBody(f: Filters, isHtml: bool, body: string) returns (text: string)
    ensures isHtml ==> exists cut: nat ::
      && cut <= |f.clean(body)| && IsCut(f.clean(body), cut)
      && text == Strip(StripTags(f.unescape(StripTags(f.dropBlocks(f.clean(body)[..cut])))))
    ensures isHtml ==> !HasTag(text)
    ensures !isHtml ==> var (c, m) := (f.clean(body), f.textQuote(f.clean(body)));
      text == Strip(if m.Some? && m.value <= |c| then c[..m.value] else c)
  {
    hide HasTag, IsCut;
    var content := f.clean(body);
    if isHtml {
      content := Kept(content);
      content := f.dropBlocks(content);
      content := StripTags(content);
      content := f.unescape(content);
      content := StripTags(content);
      OnePassLeavesNoTag(f.unescape(StripTags(f.dropBlocks(f.clean(body)[..Cut(f.clean(body))]))));
      TrimmedIsTagless(content);
    } else {
      var m := f.textQuote(content);
      if m.Some? && m.value <= |content| {
        content := content[..m.value];
      }
    }
    text := Strip(content);
  }
}
