/** The conversation history put into a task prompt: the most recent lines that fit a budget. */
module PromptHistory {
  import opened Decimal
  import opened Lines
  import opened RecencyList
  import opened Strings

  datatype TaskMessage = TaskMessage(role: string, id: int, content: string)

  datatype Meta = Meta(totalMessages: nat, included: nat, dropped: nat, outputChars: nat)

  /** What turns a role and a raw content into the text shown, or into nothing. */
  type Normalizer = (string, string) -> string

  function PrintInt(n: int): string {
    if n < 0 then "-" + Print(-n) else Print(n)
  }

  function Labelled(role: string, id: int, content: string): string {
    "[" + role + "#" + PrintInt(id) + "] " + content
  }

  /** Different messages have different numbers on their lines. */
  lemma NumbersDiffer(m: int, n: int)
    requires PrintInt(m) == PrintInt(n)
    ensures m == n
  {
    hide Print;
    ValueOfPrint(if m < 0 then -m else m);
    ValueOfPrint(if n < 0 then -n else n);
    assert m < 0 ==> PrintInt(m)[0] == '-' && PrintInt(m)[1..] == Print(-m);
    assert n < 0 ==> PrintInt(n)[0] == '-' && PrintInt(n)[1..] == Print(-n);
  }

  /** The line of a message; messages without a role or a content have none. */
  function LineOf(normalize: Normalizer, msg: TaskMessage): seq<string> {
    var role := Trim(msg.role);
    var content := normalize(role, msg.content);
    if role == "" || content == "" then [] else [Labelled(role, msg.id, content)]
  }

  function HistoryLines(normalize: Normalizer, msgs: seq<TaskMessage>): seq<string> {
    if msgs == [] then [] else HistoryLines(normalize, msgs[..|msgs| - 1]) + LineOf(normalize, msgs[|msgs| - 1])
  }

  /** `at` lists the messages that have a role and a content, all of them and in order. */
  ghost predicate ListsShown(normalize: Normalizer, msgs: seq<TaskMessage>, at: seq<nat>) {
    && (forall k :: 0 <= k < |at| ==> at[k] < |msgs|)
    && (forall i, k :: 0 <= i < k < |at| ==> at[i] < at[k])
    && (forall n: nat :: n < |msgs| ==>
      (n in at <==> Trim(msgs[n].role) != "" && normalize(Trim(msgs[n].role), msgs[n].content) != ""))
  }

  lemma OneMoreShown(normalize: Normalizer, msgs: seq<TaskMessage>, at: seq<nat>)
    requires msgs != [] && ListsShown(normalize, msgs[..|msgs| - 1], at)
    ensures var n := |msgs| - 1;
      ListsShown(normalize, msgs, if LineOf(normalize, msgs[n]) == [] then at else at + [n])
  {
    hide Trim, Labelled;
    var n := |msgs| - 1;
    assert n !in at;
    assert forall k: nat :: k < n ==> (k in at + [n] <==> k in at);
  }

  /** A message as it is shown: its role, its number and its content. */
  predicate IsLineOf(normalize: Normalizer, msg: TaskMessage, line: string) {
    line == "[" + Trim(msg.role) + "#" + PrintInt(msg.id) + "] " + normalize(Trim(msg.role), msg.content)
  }

  lemma LineIs(normalize: Normalizer, msg: TaskMessage)
    ensures LineOf(normalize, msg) != [] ==>
      |LineOf(normalize, msg)| == 1 && IsLineOf(normalize, msg, LineOf(normalize, msg)[0])
  {
    hide Trim, PrintInt;
  }

  /** The lines are the messages that have a role and a content, in the order of the messages. */
  lemma {:induction false} LinesAreMessages(normalize: Normalizer, msgs: seq<TaskMessage>) returns (at: seq<nat>)
    ensures ListsShown(normalize, msgs, at) && |HistoryLines(normalize, msgs)| == |at|
    ensures forall k :: 0 <= k < |at| ==> IsLineOf(normalize, msgs[at[k]], HistoryLines(normalize, msgs)[k])
  {
    hide Trim, LineOf, IsLineOf;
    if msgs == [] {
      at := [];
    } else {
      var n := |msgs| - 1;
      var before := LinesAreMessages(normalize, msgs[..n]);
      OneMoreShown(normalize, msgs, before);
      LineIs(normalize, msgs[n]);
      at := if LineOf(normalize, msgs[n]) == [] then before else before + [n];
    }
  }

  /** The last `count` lines are within both budgets, the newlines between them included. */
  predicate FitsBudget(lines: seq<string>, count: nat, maxMessages: nat, maxChars: nat) {
    count <= |lines| && count <= maxMessages && |Join(Last(lines, count))| <= maxChars
  }

  function Header(dropped: nat, included: nat): string {
    "history_summary:\n- dropped_messages: " + Print(dropped)
    + "\n- included_messages: " + Print(included) + "\nrecent_history:\n"
  }

  function Summary(dropped: nat, included: nat, recent: string): string {
    Header(dropped, included) + recent
  }

  /**
    The history of `lines`: the longest run of last lines within the budgets, in their own order,
    with a summary in front when lines were dropped, and the counts that describe it.
   */
  ghost predicate IsHistory(lines: seq<string>, maxMessages: nat, maxChars: nat, out: string, meta: Meta) {
    && meta.totalMessages == |lines|
    && meta.included + meta.dropped == meta.totalMessages
    && meta.outputChars == |out|
    && FitsBudget(lines, meta.included, maxMessages, maxChars)
    && (forall count: nat :: FitsBudget(lines, count, maxMessages, maxChars) ==> count <= meta.included)
    && var recent := Join(Last(lines, meta.included));
      out == if meta.dropped == 0 then recent else Summary(meta.dropped, meta.included, recent)
  }

  /** Joining more of the last lines never gives less text. */
  lemma {:induction false} LongerSuffixIsLonger(lines: seq<string>, i: nat, j: nat)
    requires i <= j <= |lines|
    ensures |Join(lines[j..])| <= |Join(lines[i..])|
    decreases j - i
  {
    if i < j {
      LongerSuffixIsLonger(lines, i + 1, j);
      assert lines[i..][1..] == lines[i + 1..];
    }
  }

  function Reversed<T>(s: seq<T>): seq<T> {
    if s == [] then [] else Reversed(s[1..]) + [s[0]]
  }

  lemma {:induction false} ReversedAt<T>(s: seq<T>, k: nat)
    requires k < |s|
    ensures |Reversed(s)| == |s| && Reversed(s)[k] == s[|s| - 1 - k]
  {
    if |s| > 1 {
      ReversedAt(s[1..], if k < |s| - 1 then k else 0);
    }
  }

  /** The first `n` elements are swapped pairwise from the ends. */
  method ReverseInPlace<T>(a: array<T>, n: nat)
    requires n <= a.Length
    modifies a
    ensures a[..n] == Reversed(old(a[..n]))
  {
    var i, j := 0, n - 1;
    while i < j
      invariant 0 <= i <= n && j == n - 1 - i && i <= j + 2
      invariant forall k :: 0 <= k < i ==> a[k] == old(a[n - 1 - k]) && a[n - 1 - k] == old(a[k])
      invariant forall k :: i <= k < n - i ==> a[k] == old(a[k])
    {
      a[i], a[j] := a[j], a[i];
      i, j := i + 1, j - 1;
    }
    ReversedIs(old(a[..n]), a[..n]);
  }

  lemma ReversedIs<T>(s: seq<T>, back: seq<T>)
    requires |s| == |back| && forall k :: 0 <= k < |s| ==> back[k] == s[|s| - 1 - k]
    ensures Reversed(s) == back
  {
    hide Reversed;
    if s == [] {
      ReversedNothing<T>();
    } else {
      ReversedAt(s, 0);
      forall k | 0 <= k < |s| ensures Reversed(s)[k] == back[k] {
        ReversedAt(s, k);
      }
    }
  }

  lemma ReversedNothing<T>()
    ensures Reversed<T>([]) == []
  {
  }

  /** Reversing the lines collected from the end gives them in their own order. */
  lemma ReversedBack<T>(s: seq<T>, back: seq<T>)
    requires |s| == |back| && forall k :: 0 <= k < |s| ==> back[k] == s[|s| - 1 - k]
    ensures Reversed(back) == s
  {
    hide Reversed;
    assert forall k :: 0 <= k < |s| ==> s[k] == back[|s| - 1 - k];
    ReversedIs(back, s);
  }

  method CollectLines(normalize: Normalizer, msgs: seq<TaskMessage>) returns (lines: seq<string>)
    ensures lines == HistoryLines(normalize, msgs)
  {
    hide Labelled, Trim;
    lines := [];
    for n := 0 to |msgs|
      invariant lines == HistoryLines(normalize, msgs[..n])
    {
      var msg := msgs[n];
      assert msgs[..n + 1][..n] == msgs[..n];
      var role := Trim(msg.role);
      if role == "" {
        continue;
      }
      var content := normalize(role, msg.content);
      if content == "" {
        continue;
      }
      lines := lines + [Labelled(role, msg.id, content)];
    }
    assert msgs[..|msgs|] == msgs;
  }

  /** Joining one line more adds the line, and a newline unless it is alone. */
  lemma OneMoreLine(lines: seq<string>, i: nat)
    requires i < |lines|
    ensures |Join(lines[i..])| == |lines[i]| + if i + 1 == |lines| then 0 else 1 + |Join(lines[i + 1..])|
  {
  }

  /** Once one line more is too long, so is every longer suffix. */
  lemma TooLong(lines: seq<string>, count: nat, maxChars: nat)
    requires count < |lines| && |Join(lines[|lines| - 1 - count..])| > maxChars
    ensures forall more: nat :: FitsBudget(lines, more, |lines|, maxChars) ==> more <= count
  {
    forall more: nat | FitsBudget(lines, more, |lines|, maxChars) ensures more <= count {
      if more > count {
        LongerSuffixIsLonger(lines, |lines| - more, |lines| - 1 - count);
      }
    }
  }

  lemma NothingJoined(lines: seq<string>)
    ensures Join(lines[|lines|..]) == []
  {
  }

  /** A suffix within the budget: the longest one, when it is all there is or one line more is too long. */
  lemma SuffixFits(lines: seq<string>, count: nat, maxChars: nat)
    requires count <= |lines| && |Join(lines[|lines| - count..])| <= maxChars
    ensures FitsBudget(lines, count, |lines|, maxChars)
    ensures count == |lines| ==> forall more: nat :: FitsBudget(lines, more, |lines|, maxChars) ==> more <= count
  {
  }

  /** The last lines within `maxChars`, collected from the end with a running total. */
  method KeepWithin(candidate: seq<string>, maxChars: nat) returns (kept: array<string>, count: nat)
    ensures fresh(kept) && kept.Length == |candidate|
    ensures FitsBudget(candidate, count, |candidate|, maxChars)
    ensures forall more: nat :: FitsBudget(candidate, more, |candidate|, maxChars) ==> more <= count
    ensures forall k :: 0 <= k < count ==> kept[k] == candidate[|candidate| - 1 - k]
  {
    hide Join, FitsBudget;
    kept := new string[|candidate|];
    count := 0;
    var totalChars := 0;
    var i := |candidate| - 1;
    NothingJoined(candidate);
    while i >= 0
      decreases i
      invariant i == |candidate| - 1 - count >= -1
      invariant totalChars == |Join(candidate[i + 1..])| <= maxChars
      invariant forall k :: 0 <= k < count ==> kept[k] == candidate[|candidate| - 1 - k]
    {
      var line := candidate[i];
      var addition := |line|;
      if count > 0 {
        addition := addition + 1;
      }
      OneMoreLine(candidate, i);
      NothingJoined(candidate);
      if totalChars + addition > maxChars {
        TooLong(candidate, count, maxChars);
        break;
      }
      kept[count] := line;
      count := count + 1;
      totalChars := totalChars + addition;
      i := i - 1;
    }
    SuffixFits(candidate, count, maxChars);
  }

  /** The budget of the candidate lines is the budget of all lines. */
  lemma CandidateBudget(lines: seq<string>, maxMessages: nat, maxChars: nat, count: nat)
    ensures var candidate := Last(lines, maxMessages);
      FitsBudget(lines, count, maxMessages, maxChars) <==> FitsBudget(candidate, count, |candidate|, maxChars)
    ensures count <= |Last(lines, maxMessages)| ==> Last(lines, count) == Last(Last(lines, maxMessages), count)
  {
  }

  /** The text made of the last `count` lines, and what is said about it. */
  function Rendered(lines: seq<string>, count: nat): (string, Meta)
    requires count <= |lines|
  {
    var dropped, recent := |lines| - count, Join(Last(lines, count));
    var out := if dropped == 0 then recent else Summary(dropped, count, recent);
    (out, Meta(|lines|, count, dropped, |out|))
  }

  lemma KeptIsHistory(lines: seq<string>, maxMessages: nat, maxChars: nat, count: nat)
    requires var candidate := Last(lines, maxMessages);
      && FitsBudget(candidate, count, |candidate|, maxChars)
      && forall more: nat :: FitsBudget(candidate, more, |candidate|, maxChars) ==> more <= count
    ensures count <= |lines| && IsHistory(lines, maxMessages, maxChars, Rendered(lines, count).0,
      Rendered(lines, count).1)
    ensures Last(lines, count) == Last(Last(lines, maxMessages), count)
  {
    hide FitsBudget, Last, Join, Summary;
    forall more: nat
      ensures FitsBudget(lines, more, maxMessages, maxChars)
        <==> FitsBudget(Last(lines, maxMessages), more, |Last(lines, maxMessages)|, maxChars)
    {
      CandidateBudget(lines, maxMessages, maxChars, more);
    }
    BudgetBounds(lines, count, maxMessages, maxChars);
    BudgetBounds(Last(lines, maxMessages), count, |Last(lines, maxMessages)|, maxChars);
    CandidateBudget(lines, maxMessages, maxChars, count);
  }

  lemma BudgetBounds(lines: seq<string>, count: nat, maxMessages: nat, maxChars: nat)
    requires FitsBudget(lines, count, maxMessages, maxChars)
    ensures count <= |lines| && count <= maxMessages
  {
  }

  /** No lines make an empty history. */
  lemma NothingIsHistory(maxMessages: nat, maxChars: nat)
    ensures IsHistory([], maxMessages, maxChars, "", Meta(0, 0, 0, 0))
  {
  }

  /** The lines kept are the longest run of last lines within the budgets, in their own order. */
  method BuildTaskPromptHistory(normalize: Normalizer, msgs: seq<TaskMessage>, maxMessagesOption: int,
      maxCharsOption: int)
    returns (out: string, meta: Meta)
    ensures IsHistory(HistoryLines(normalize, msgs), if maxMessagesOption <= 0 then 80 else maxMessagesOption,
      if maxCharsOption <= 0 then 12000 else maxCharsOption, out, meta)
  {
    hide HistoryLines, Summary, Reversed, IsHistory, FitsBudget, Join;
    var maxMessages := if maxMessagesOption <= 0 then 80 else maxMessagesOption;
    var maxChars := if maxCharsOption <= 0 then 12000 else maxCharsOption;
    var lines := CollectLines(normalize, msgs);
    if lines == [] {
      NothingIsHistory(maxMessages, maxChars);
      return "", Meta(0, 0, 0, 0);
    }
    var start := if |lines| > maxMessages then |lines| - maxMessages else 0;
    var candidate := lines[start..];
    assert candidate == Last(lines, maxMessages);
    var kept, count := KeepWithin(candidate, maxChars);
    KeptIsHistory(lines, maxMessages, maxChars, count);
    BudgetBounds(candidate, count, |candidate|, maxChars);
    ghost var back := kept[..count];
    ReverseInPlace(kept, count);
    ReversedBack(Last(lines, count), back);
    var recent := Join(kept[..count]);
    var dropped := |lines| - count;
    if dropped == 0 {
      return recent, Meta(|lines|, count, 0, |recent|);
    }
    out := Summary(dropped, count, recent);
    meta := Meta(|lines|, count, dropped, |out|);
  }

  /** Fewer of the last lines fit as well. */
  lemma FewerFit(lines: seq<string>, maxMessages: nat, maxChars: nat, count: nat, more: nat)
    requires FitsBudget(lines, more, maxMessages, maxChars) && count <= more
    ensures FitsBudget(lines, count, maxMessages, maxChars)
  {
    hide Join;
    LongerSuffixIsLonger(lines, |lines| - more, |lines| - count);
    assert lines[|lines| - 0..] == [] && lines[0..] == lines;
  }

  /** The last `count` lines, but not one more, are within the budgets, and so they are with the header in front. */
  predicate FitsWithHeader(lines: seq<string>, count: nat, maxMessages: nat, maxChars: nat) {
    && count < |lines|
    && FitsBudget(lines, count, maxMessages, maxChars) && !FitsBudget(lines, count + 1, maxMessages, maxChars)
    && |Header(|lines| - count, count)| + |Join(Last(lines, count))| <= maxChars
  }

  /**
    The output keeps to the character budget exactly when all lines are within the budgets, or the longest
    run of last lines that is leaves room for the header that counts the others.
   */
  lemma OutputFitsIff(lines: seq<string>, maxMessages: nat, maxChars: nat, out: string, meta: Meta)
    requires IsHistory(lines, maxMessages, maxChars, out, meta)
    ensures |out| <= maxChars <==>
      || FitsBudget(lines, |lines|, maxMessages, maxChars)
      || exists count: nat :: FitsWithHeader(lines, count, maxMessages, maxChars)
  {
    hide Header, Join, Last, FitsBudget;
    var kept := meta.included;
    BudgetBounds(lines, kept, maxMessages, maxChars);
    if FitsBudget(lines, |lines|, maxMessages, maxChars) {
      AllFit(lines, maxMessages, maxChars);
    } else {
      assert FitsWithHeader(lines, kept, maxMessages, maxChars) <==> |out| <= maxChars;
      forall count: nat | FitsWithHeader(lines, count, maxMessages, maxChars) ensures count == kept {
        if count < kept {
          FewerFit(lines, maxMessages, maxChars, count + 1, kept);
        }
      }
    }
  }

  lemma AllFit(lines: seq<string>, maxMessages: nat, maxChars: nat)
    requires FitsBudget(lines, |lines|, maxMessages, maxChars)
    ensures |Join(Last(lines, |lines|))| <= maxChars
  {
  }

  /** A smaller number has no longer numeral. */
  lemma {:induction false} PrintGrows(m: nat, n: nat)
    requires m <= n
    ensures |Print(m)| <= |Print(n)|
  {
    if n >= 10 && m >= 10 {
      PrintGrows(m / 10, n / 10);
    }
  }

  /** And it never exceeds the budget by more than a header that counts all lines twice. */
  lemma ExcessIsBounded(lines: seq<string>, maxMessages: nat, maxChars: nat, out: string, meta: Meta)
    requires IsHistory(lines, maxMessages, maxChars, out, meta)
    ensures |out| <= maxChars + |Header(|lines|, |lines|)|
  {
    hide Print, Join, Last;
    PrintGrows(meta.dropped, |lines|);
    PrintGrows(meta.included, |lines|);
  }

  /** It can exceed the budget: of two lines the last one fits, and the header does not. */
  lemma OutputCanExceedBudget()
    ensures var out := Summary(1, 1, "b");
      IsHistory(["aa", "b"], 80, 1, out, Meta(2, 1, 1, |out|)) && |out| > 1
  {
    var lines := ["aa", "b"];
    assert Last(lines, 1) == ["b"] && Last(lines, 2) == lines && lines[1..] == ["b"];
    assert |Join(["b"])| == 1 && |Join(lines)| == 4;
    assert FitsBudget(lines, 1, 80, 1);
    forall count: nat | FitsBudget(lines, count, 80, 1) ensures count <= 1 {
      assert count == 2 ==> |Join(Last(lines, count))| == 4;
    }
  }

  lemma HistoryText(lines: seq<string>, maxMessages: nat, maxChars: nat, out: string, meta: Meta)
    requires IsHistory(lines, maxMessages, maxChars, out, meta)
    ensures meta.totalMessages == |lines| && meta.included <= |lines| && meta.dropped == |lines| - meta.included
    ensures meta.dropped == 0 ==> out == Join(Last(lines, meta.included))
    ensures meta.dropped > 0 ==>
      out == "history_summary:\n- dropped_messages: " + Print(meta.dropped)
        + "\n- included_messages: " + Print(meta.included) + "\nrecent_history:\n" + Join(Last(lines, meta.included))
  {
    hide Join, Print, Last;
  }

  /**
    The output is the last of the messages that have a role and a content, in their order, one to a line;
    when messages were left out, their number and the number of those shown come first.
   */
  lemma {:induction false} LastMessagesAreKept(normalize: Normalizer, msgs: seq<TaskMessage>, maxMessages: nat,
      maxChars: nat, out: string, meta: Meta)
    returns (at: seq<nat>, lines: seq<string>)
    requires IsHistory(HistoryLines(normalize, msgs), maxMessages, maxChars, out, meta)
    ensures ListsShown(normalize, msgs, at) && meta.totalMessages == |at|
    ensures |lines| == meta.included <= |at| && meta.dropped == |at| - meta.included
    ensures forall k :: 0 <= k < |lines| ==> IsLineOf(normalize, msgs[at[meta.dropped + k]], lines[k])
    ensures meta.dropped == 0 ==> out == Join(lines)
    ensures meta.dropped > 0 ==>
      out == "history_summary:\n- dropped_messages: " + Print(meta.dropped)
        + "\n- included_messages: " + Print(meta.included) + "\nrecent_history:\n" + Join(lines)
  {
    hide IsLineOf, HistoryLines, Join, Print, FitsBudget, ListsShown;
    at := LinesAreMessages(normalize, msgs);
    var all := HistoryLines(normalize, msgs);
    HistoryText(all, maxMessages, maxChars, out, meta);
    lines := Last(all, meta.included);
    assert forall k :: 0 <= k < |lines| ==> lines[k] == all[meta.dropped + k];
  }
}
