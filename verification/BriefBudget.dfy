/**
  One contact's brief under a counted input budget: count the exact request, shrink the history while
  it is over budget, and generate only from a request that was counted within it.
 */
module BriefBudget {
  import opened Wrappers

  const MAX_INPUT_TOKENS := 160_000
  const MAX_PREFLIGHT_CALLS := 10
  const SHORTEST_CUT_TEXT := 32

  /** One message of the gathered history; `header` stands for its channel, direction and time. */
  datatype Message = Message(header: string, text: string)

  /** What varies in the request: everything else in the prompt and the tools is fixed per attempt. */
  datatype Request = Request(messages: seq<Message>, partialHistory: bool)

  const MAX_INTEGER := 0x7fff_ffff

  /** What a token column, a 32-bit integer checked to be at least 0, makes of a Python value. */
  datatype Column = Refused | Holds(value: Option<int>)

  /** What a token-counting call answered; of anything but an integer, only what the column would make of it. */
  datatype CountReply = CountRaises | NotAnInteger(column: Column) | Tokens(n: int)

  /** What a generation call answered, after validation. */
  datatype Reply<B> = ProviderRaises | InvalidReply | Parsed(brief: B)

  datatype ErrorCode = TokenCountFailed | ProviderFailed | InvalidResponse | InputBudgetExceeded

  datatype Status = Success | Truncated | Skipped | Failed

  datatype AttemptRow = AttemptRow(
    status: Status,
    errorCode: Option<ErrorCode>,
    inputTokens: Option<int>,
    originalInputTokens: Option<int>,
    omittedMessages: nat,
    truncatedText: bool)

  /** StorageRefused: the status table takes no row with these token counts, and the transaction is rolled back. */
  datatype Outcome<B> = Brief(brief: B) | NoBrief | Raised(code: ErrorCode) | StorageRefused

  // ---------------------------------------------------------------- shrinking

  predicate Reducible(r: Request) {
    |r.messages| > 1 || (|r.messages| == 1 && |r.messages[0].text| > SHORTEST_CUT_TEXT)
  }

  /** Drop the older half of the messages or, when one is left, the later half of its text. */
  function Shrink(r: Request): Request
    requires Reducible(r)
  {
    if |r.messages| > 1 then Request(r.messages[|r.messages| / 2..], true)
    else
      var m := r.messages[0];
      Request([m.(text := m.text[..|m.text| / 2])], true)
  }

  /** What can be cut, and what cutting does: the newer half of the messages stays, or half of the last one's text. */
  lemma CuttingIs(r: Request)
    ensures Reducible(r) <==> |r.messages| > 1 || (|r.messages| == 1 && |r.messages[0].text| > 32)
    ensures |r.messages| > 1 ==>
      Shrink(r).partialHistory && Shrink(r).messages == r.messages[|r.messages| / 2..]
    ensures |r.messages| == 1 && Reducible(r) ==>
      && Shrink(r).partialHistory && |Shrink(r).messages| == 1 && Shrink(r).messages[0].header == r.messages[0].header
      && Shrink(r).messages[0].text == r.messages[0].text[..|r.messages[0].text| / 2]
  {
  }

  /** The request after k reductions, as far as it can be reduced. */
  function Reduced(history: seq<Message>, k: nat): Request {
    if k == 0 then Request(history, false)
    else
      var r := Reduced(history, k - 1);
      if Reducible(r) then Shrink(r) else r
  }

  function Power2(k: nat): nat {
    if k == 0 then 1 else 2 * Power2(k - 1)
  }

  /** What a reduction may do to a history: keep its end, and shorten text only of a last single message. */
  ghost predicate KeepsTheEnd(history: seq<Message>, r: Request) {
    var (n, kept) := (|history|, |r.messages|);
    && kept <= n && (n > 0 ==> kept > 0)
    && (kept > 1 ==> r.messages == history[n - kept..])
    && (kept == 1 ==>
         && r.messages[0].header == history[n - 1].header
         && r.messages[0].text <= history[n - 1].text
         && (r.messages[0].text != history[n - 1].text ==> |r.messages[0].text| >= SHORTEST_CUT_TEXT / 2))
    && (r.partialHistory <==> r.messages != history)
  }

  lemma DroppingKeepsTheEnd(history: seq<Message>, r: Request)
    requires KeepsTheEnd(history, r) && |r.messages| > 1
    ensures KeepsTheEnd(history, Shrink(r))
  {
    var (n, kept) := (|history|, |r.messages|);
    var start := n - kept + kept / 2;
    TailOfTail(history, n - kept, kept / 2);
    var tail := history[start..];
    assert r.messages == history[n - kept..] && Shrink(r) == Request(tail, true) && 0 < start < n;
    assert |tail| == n - start && tail[|tail| - 1] == history[n - 1];
    hide Shrink;
  }

  lemma TailOfTail(history: seq<Message>, i: nat, j: nat)
    requires i + j <= |history|
    ensures history[i..][j..] == history[i + j..]
  {
  }

  lemma CuttingKeepsTheEnd(history: seq<Message>, r: Request)
    requires KeepsTheEnd(history, r) && |r.messages| == 1 && |r.messages[0].text| > SHORTEST_CUT_TEXT
    ensures KeepsTheEnd(history, Shrink(r))
  {
    var (before, after) := (r.messages[0].text, Shrink(r).messages[0].text);
    assert after == before[..|before| / 2] && |after| < |before|;
    assert |history| == 1 ==> Shrink(r).messages[0] != history[0];
  }

  lemma WholeHistoryKeepsTheEnd(history: seq<Message>)
    ensures KeepsTheEnd(history, Request(history, false))
  {
    assert history[0..] == history;
  }

  /** However often it is reduced, a request keeps the end of the history and never empties it. */
  lemma {:induction false} ReductionKeepsTheEnd(history: seq<Message>, k: nat)
    ensures KeepsTheEnd(history, Reduced(history, k))
  {
    hide KeepsTheEnd;
    if k == 0 {
      WholeHistoryKeepsTheEnd(history);
    } else {
      ReductionKeepsTheEnd(history, k - 1);
      var r := Reduced(history, k - 1);
      if |r.messages| > 1 {
        DroppingKeepsTheEnd(history, r);
      } else if Reducible(r) {
        CuttingKeepsTheEnd(history, r);
      }
    }
  }

  lemma CeilingHalves(n: nat, m: nat, p: nat)
    requires p > 0 && m == (n + p - 1) / p
    ensures m - m / 2 == (n + 2 * p - 1) / (2 * p)
  {
    var q := (n + 2 * p - 1) / (2 * p);
    var h := m - m / 2;
    assert p * m <= n + p - 1 < p * m + p;
    assert m == 2 * h || m == 2 * h - 1;
    assert p * m == p * (2 * h) || p * m == p * (2 * h) - p;
    assert p * (2 * h) == 2 * p * h;
    assert 2 * p * h <= n + 2 * p - 1 < 2 * p * h + 2 * p;
    QuotientIsUnique(n + 2 * p - 1, 2 * p, h);
  }

  lemma ProductKeepsOrder(d: int, x: int, y: int)
    requires d > 0 && x <= y
    ensures d * x <= d * y
  {
  }

  lemma QuotientIsUnique(x: int, d: int, q: int)
    requires d > 0 && d * q <= x < d * q + d
    ensures x / d == q
  {
    var r := x / d;
    assert d * r <= x < d * r + d;
    if r < q {
      ProductKeepsOrder(d, r + 1, q);
    } else if q < r {
      ProductKeepsOrder(d, q + 1, r);
    }
  }

  /** k reductions keep ceil(n / 2^k) of n messages. */
  lemma {:induction false} ReductionKeepsCeiling(history: seq<Message>, k: nat)
    ensures Power2(k) > 0
    ensures |Reduced(history, k).messages| == (|history| + Power2(k) - 1) / Power2(k)
  {
    if k > 0 {
      ReductionKeepsCeiling(history, k - 1);
      var r := Reduced(history, k - 1);
      CeilingHalves(|history|, |r.messages|, Power2(k - 1));
    }
  }

  // ---------------------------------------------------------------- the attempt

  /** Every one of the first k requests was counted and found over budget. */
  ghost predicate AllOverBudget(history: seq<Message>, count: (nat, Request) -> CountReply, k: nat) {
    forall j :: 0 <= j < k ==>
      && count(j, Reduced(history, j)).Tokens?
      && count(j, Reduced(history, j)).n > MAX_INPUT_TOKENS
      && Reducible(Reduced(history, j))
  }

  /** The one message left has lost text. */
  predicate Shortened(history: seq<Message>, r: Request) {
    |r.messages| == 1 && |history| > 0 && r.messages[0].text != history[|history| - 1].text
  }

  lemma NothingShortenedYet(history: seq<Message>)
    ensures !Shortened(history, Request(history, false))
  {
  }

  lemma OnlyCuttingShortens(history: seq<Message>, k: nat)
    requires Reducible(Reduced(history, k))
    ensures Shortened(history, Shrink(Reduced(history, k))) <==> |Reduced(history, k).messages| == 1
    ensures Shortened(history, Reduced(history, k)) ==> |Reduced(history, k).messages| == 1
  {
    ReductionKeepsTheEnd(history, k);
    var r := Reduced(history, k);
    if |r.messages| > 1 {
      DroppingKeepsTheEnd(history, r);
      assert r.messages[|r.messages| / 2..][|r.messages| - |r.messages| / 2 - 1] == r.messages[|r.messages| - 1];
    } else {
      assert |Shrink(r).messages[0].text| < |r.messages[0].text|;
    }
  }

  function LastCount(history: seq<Message>, count: (nat, Request) -> CountReply, k: nat): CountReply {
    count(k, Reduced(history, k))
  }

  /** A count of at most 160,000. */
  predicate FitsBudget(reply: CountReply) {
    reply.Tokens? && 0 <= reply.n <= 160_000
  }

  /** original_input_tokens: the first answer, if it is a count. */
  function OriginalTokens(history: seq<Message>, count: (nat, Request) -> CountReply): Column {
    var first := LastCount(history, count, 0);
    if first.Tokens? && first.n >= 0 then Stored(first) else Holds(None)
  }

  /** The status row of an attempt with these counts can be stored. */
  predicate Storable(history: seq<Message>, count: (nat, Request) -> CountReply, k: nat) {
    InputTokens(history, count, k) != Refused && OriginalTokens(history, count) != Refused
  }

  /** Its token columns take every count of a 32-bit integer that is not negative, and nothing else that was counted. */
  lemma StorableIff(history: seq<Message>, count: (nat, Request) -> CountReply, k: nat)
    requires AllOverBudget(history, count, k)
    ensures var (first, last) := (count(0, Request(history, false)), count(k, Reduced(history, k)));
      Storable(history, count, k) <==>
        && (last.Tokens? ==> 0 <= last.n <= 2_147_483_647)
        && (last.NotAnInteger? ==> last.column.Holds?)
        && (last.CountRaises? && k > 0 ==> count(k - 1, Reduced(history, k - 1)).n <= 2_147_483_647)
        && (first.Tokens? ==> first.n <= 2_147_483_647)
  {
    assert Reduced(history, 0) == Request(history, false);
  }

  /** What the column makes of the answer. */
  function Stored(reply: CountReply): Column {
    match reply
    case CountRaises => Holds(None)
    case NotAnInteger(column) => column
    case Tokens(n) => if 0 <= n <= MAX_INTEGER then Holds(Some(n)) else Refused
  }

  /** input_tokens after k reductions: that of the last call that answered. */
  function InputTokens(history: seq<Message>, count: (nat, Request) -> CountReply, k: nat): Column {
    var last := LastCount(history, count, k);
    if last == CountRaises && k > 0 then Stored(LastCount(history, count, k - 1)) else Stored(last)
  }

  /** The row of a stored attempt: how it ended, and from how much of the history. */
  ghost predicate EndsAs<B>(history: seq<Message>, kept: seq<Message>, outcome: Outcome<B>, row: AttemptRow) {
    && (row.status == Truncated <==> outcome.Brief? && kept != history)
    && (row.status == Success <==> outcome.Brief? && kept == history)
    && (row.status == Skipped <==> outcome.NoBrief?)
    && (row.status == Failed <==> outcome.Raised?)
    && (outcome.Brief? ==> row.errorCode == None)
    && (outcome.NoBrief? ==> row.errorCode == Some(InputBudgetExceeded))
    && (outcome.Raised? ==> row.errorCode == Some(outcome.code))
    && row.omittedMessages + |kept| == |history|
    && (row.truncatedText <==> |kept| == 1 && |history| > 0 && kept[0].text != history[|history| - 1].text)
  }

  /** Its token columns, from the first answer, the last one and the one before. */
  ghost predicate HoldsTokens(first: CountReply, last: CountReply, k: nat, before: CountReply, row: AttemptRow) {
    && (last.Tokens? ==> row.inputTokens == Some(last.n))
    && (last.NotAnInteger? ==> last.column == Holds(row.inputTokens))
    && (last.CountRaises? && k == 0 ==> row.inputTokens == None)
    && (last.CountRaises? && k > 0 ==> row.inputTokens.Some? && before == CountReply.Tokens(row.inputTokens.value))
    && (first.Tokens? ==> row.originalInputTokens == Some(first.n))
    && (!first.Tokens? ==> row.originalInputTokens == None)
  }

  /** The row of a stored attempt, column by column, from what the counter answered and how the attempt ended. */
  ghost predicate IsAttempt<B>(history: seq<Message>, count: (nat, Request) -> CountReply, k: nat, outcome: Outcome<B>,
                               row: AttemptRow) {
    && EndsAs(history, Reduced(history, k).messages, outcome, row)
    && HoldsTokens(count(0, Request(history, false)), count(k, Reduced(history, k)), k,
                   if k > 0 then count(k - 1, Reduced(history, k - 1)) else CountRaises, row)
  }

  lemma TokensAreHeld(history: seq<Message>, count: (nat, Request) -> CountReply, k: nat, row: AttemptRow)
    requires AllOverBudget(history, count, k)
    requires InputTokens(history, count, k) == Holds(row.inputTokens)
    requires OriginalTokens(history, count) == Holds(row.originalInputTokens)
    ensures HoldsTokens(count(0, Request(history, false)), count(k, Reduced(history, k)), k,
                        if k > 0 then count(k - 1, Reduced(history, k - 1)) else CountRaises, row)
  {
    assert Reduced(history, 0) == Request(history, false);
    assert k > 0 ==> count(k - 1, Reduced(history, k - 1)).Tokens?;
    hide AllOverBudget, Reduced;
  }

  lemma OneMoreReduction(history: seq<Message>, count: (nat, Request) -> CountReply, k: nat)
    requires AllOverBudget(history, count, k) && Reducible(Reduced(history, k))
    requires LastCount(history, count, k).Tokens? && LastCount(history, count, k).n > MAX_INPUT_TOKENS
    ensures Reduced(history, k + 1) == Shrink(Reduced(history, k)) && AllOverBudget(history, count, k + 1)
  {
  }

  /** The token columns when the call after k reductions raises. */
  lemma TokensWhenRaised(history: seq<Message>, count: (nat, Request) -> CountReply, k: nat)
    requires LastCount(history, count, k) == CountRaises
    ensures InputTokens(history, count, k) == if k == 0 then Holds(None) else Stored(LastCount(history, count, k - 1))
    ensures k == 0 ==> OriginalTokens(history, count) == Holds(None)
  {
  }

  /** The token columns when it answers. */
  lemma TokensWhenAnswered(history: seq<Message>, count: (nat, Request) -> CountReply, k: nat)
    requires AllOverBudget(history, count, k) && LastCount(history, count, k) != CountRaises
    ensures InputTokens(history, count, k) == Stored(LastCount(history, count, k))
    ensures var reply := LastCount(history, count, k);
      if k > 0 then OriginalTokens(history, count) != Holds(None)
      else if reply.Tokens? && reply.n >= 0 then OriginalTokens(history, count) == Stored(reply) != Holds(None)
      else OriginalTokens(history, count) == Holds(None)
  {
  }

  /** The counting loop of generate_brief: stop within budget, at the last call, or when nothing is left to cut. */
  method CountAndShrink(history: seq<Message>, count: (nat, Request) -> CountReply)
    returns (reply: CountReply, data: Request, k: nat, inputTokens: Column, originalTokens: Column, truncatedText: bool)
    ensures k < MAX_PREFLIGHT_CALLS && AllOverBudget(history, count, k)
    ensures data == Reduced(history, k) && reply == LastCount(history, count, k)
    ensures reply.Tokens? && reply.n > MAX_INPUT_TOKENS ==> k + 1 == MAX_PREFLIGHT_CALLS || !Reducible(data)
    ensures inputTokens == InputTokens(history, count, k)
    ensures originalTokens == OriginalTokens(history, count)
    ensures truncatedText <==> Shortened(history, data)
  {
    hide KeepsTheEnd, Shortened, InputTokens, OriginalTokens, Stored;
    assert !Shortened(history, Request(history, false)) by {
      NothingShortenedYet(history);
    }
    data, k := Request(history, false), 0;
    inputTokens, originalTokens, truncatedText := Holds(None), Holds(None), false;
    while true
      invariant k < MAX_PREFLIGHT_CALLS
      invariant data == Reduced(history, k) && AllOverBudget(history, count, k)
      invariant originalTokens == if k == 0 then Holds(None) else OriginalTokens(history, count)
      invariant inputTokens == if k == 0 then Holds(None) else Stored(LastCount(history, count, k - 1))
      invariant k > 0 ==> originalTokens != Holds(None)
      invariant truncatedText <==> Shortened(history, data)
      decreases MAX_PREFLIGHT_CALLS - k
    {
      reply := count(k, data);
      if reply == CountRaises {
        TokensWhenRaised(history, count, k);
        return;
      }
      TokensWhenAnswered(history, count, k);
      inputTokens := Stored(reply);
      if !reply.Tokens? || reply.n < 0 {
        return;
      }
      if originalTokens == Holds(None) {
        originalTokens := inputTokens;
      }
      if reply.n <= MAX_INPUT_TOKENS || k == MAX_PREFLIGHT_CALLS - 1 {
        return;
      }
      if Reducible(data) {
        OnlyCuttingShortens(history, k);
        OneMoreReduction(history, count, k);
      }
      if |data.messages| > 1 {
        data := data.(messages := data.messages[|data.messages| / 2..]);
      } else if |data.messages| == 1 && |data.messages[0].text| > SHORTEST_CUT_TEXT {
        var text := data.messages[0].text;
        data := data.(messages := [data.messages[0].(text := text[..|text| / 2])]);
        truncatedText := true;
      } else {
        return;
      }
      data := data.(partialHistory := true);
      k := k + 1;
    }
  }

  /** ai_brief and ai_brief_status of one contact; both keep their last row. */
  class BriefTables<B(==)> {
    var brief: Option<B>
    var attempt: Option<AttemptRow>

    constructor ()
      ensures brief == None && attempt == None
    {
      brief, attempt := None, None;
    }

    /** The end of generate_brief, where the counting stopped at `data` and both token columns can be stored. */
    method Conclude(history: seq<Message>, data: Request, reply: CountReply, inputTokens: Option<int>,
                    originalTokens: Option<int>, truncatedText: bool, generate: Request -> Reply<B>)
      returns (outcome: Outcome<B>)
      requires |data.messages| <= |history| && (data.partialHistory <==> data.messages != history)
      requires truncatedText <==> Shortened(history, data)
      requires reply.Tokens? ==> reply.n >= 0
      modifies this
      ensures outcome != StorageRefused
      ensures outcome == Raised(TokenCountFailed) <==> !reply.Tokens?
      ensures outcome == NoBrief <==> reply.Tokens? && reply.n > 160_000
      ensures outcome == Raised(ProviderFailed) <==> FitsBudget(reply) && generate(data) == ProviderRaises
      ensures outcome == Raised(InvalidResponse) <==> FitsBudget(reply) && generate(data) == InvalidReply
      ensures outcome.Brief? <==> FitsBudget(reply) && generate(data).Parsed?
      ensures outcome.Brief? ==> generate(data) == Parsed(outcome.brief) && brief == Some(outcome.brief)
      ensures !outcome.Brief? ==> brief == old(brief)
      ensures attempt.Some? && EndsAs(history, data.messages, outcome, attempt.value)
      ensures attempt.value.inputTokens == inputTokens && attempt.value.originalInputTokens == originalTokens
    {
      var status, code := Failed, None;
      if !reply.Tokens? {
        code, outcome := Some(TokenCountFailed), Raised(TokenCountFailed);
      } else if reply.n > MAX_INPUT_TOKENS {
        status, code, outcome := Skipped, Some(InputBudgetExceeded), NoBrief;
      } else {
        match generate(data)
        case ProviderRaises => code, outcome := Some(ProviderFailed), Raised(ProviderFailed);
        case InvalidReply => code, outcome := Some(InvalidResponse), Raised(InvalidResponse);
        case Parsed(b) =>
          brief := Some(b);
          status, outcome := if data.partialHistory then Truncated else Success, Brief(b);
      }
      var omitted := |history| - |data.messages|;
      attempt := Some(AttemptRow(status, code, inputTokens, originalTokens, omitted, truncatedText));
    }

    /**
      generate_brief. `count` is any token counter, which may answer differently every time it is
      asked; `generate` is any provider. `k` is the number of reductions made.
     */
    method GenerateBrief(history: seq<Message>, clientOpens: bool, count: (nat, Request) -> CountReply,
                         generate: Request -> Reply<B>)
      returns (outcome: Outcome<B>, k: nat, calls: nat)
      modifies this
      // at most ten counts, each of the exact next reduction of the history, all but the last over budget
      ensures calls <= 10
      ensures forall j :: 0 <= j < k ==>
        count(j, Reduced(history, j)).Tokens? && count(j, Reduced(history, j)).n > 160_000
      ensures if clientOpens then calls == k + 1 else calls == k == 0
      // each outcome, exactly: nothing is generated except from the request last counted, within budget
      ensures outcome == StorageRefused <==> clientOpens && !Storable(history, count, k)
      ensures outcome.Brief? <==>
        && clientOpens && Storable(history, count, k) && FitsBudget(count(k, Reduced(history, k)))
        && generate(Reduced(history, k)).Parsed?
      ensures outcome == Raised(InvalidResponse) <==>
        && clientOpens && Storable(history, count, k) && FitsBudget(count(k, Reduced(history, k)))
        && generate(Reduced(history, k)) == InvalidReply
      ensures outcome == Raised(ProviderFailed) <==>
        || !clientOpens
        || (Storable(history, count, k) && FitsBudget(count(k, Reduced(history, k)))
            && generate(Reduced(history, k)) == ProviderRaises)
      ensures outcome == Raised(TokenCountFailed) <==>
        clientOpens && Storable(history, count, k) && !count(k, Reduced(history, k)).Tokens?
      ensures outcome == NoBrief ==> calls == 10 || !Reducible(Reduced(history, k))
      // the rows written
      ensures outcome.Brief? ==> generate(Reduced(history, k)) == Parsed(outcome.brief) && brief == Some(outcome.brief)
      ensures !outcome.Brief? ==> brief == old(brief)
      ensures outcome == StorageRefused ==> attempt == old(attempt)
      ensures !clientOpens ==> attempt == Some(AttemptRow(Failed, Some(ProviderFailed), None, None, 0, false))
      ensures clientOpens && outcome != StorageRefused ==>
        attempt.Some? && IsAttempt(history, count, k, outcome, attempt.value)
    {
      calls, k := 0, 0;
      if !clientOpens {
        attempt := Some(AttemptRow(Failed, Some(ProviderFailed), None, None, 0, false));
        return Raised(ProviderFailed), 0, 0;
      }
      var reply, data, inputTokens, originalTokens, truncatedText;
      reply, data, k, inputTokens, originalTokens, truncatedText := CountAndShrink(history, count);
      calls := k + 1;
      ReductionKeepsTheEnd(history, k);
      assert reply.Tokens? && reply.n < 0 ==> inputTokens == Refused;
      hide InputTokens, OriginalTokens, Stored, Reduced, HoldsTokens, EndsAs, AllOverBudget;
      if inputTokens == Refused || originalTokens == Refused {
        return StorageRefused, k, calls;  // whatever else happens, the status row fails in the end
      }
      outcome := Conclude(history, data, reply, inputTokens.value, originalTokens.value, truncatedText, generate);
      TokensAreHeld(history, count, k, attempt.value);
    }
  }
}
