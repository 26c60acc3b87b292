/** The text of findings within one budget: an online walk-back over spans
    read together keeps what a plain greedy pass keeps. */
module TraceFilling {
  import opened Common

  type Text = seq<byte>

  /** One line as shown: masked and cut. */
  datatype Line = Line(text: Text, masked: bool) {
    function Cost(): nat {
      |text| + 1
    }
  }

  const MAX_CONTEXT_LINES := 0x4000_0000

  /** The lines asked for around a finding. */
  datatype Context = Context(before: int, after: int) {
    function Before(): nat {
      Max(Min(before, MAX_CONTEXT_LINES), 0)
    }

    function After(): nat {
      Max(Min(after, MAX_CONTEXT_LINES), 0)
    }
  }

  /** A finding's own lines. */
  datatype Span = Span(startLine: int, endLine: int)

  /** The scanned text of a file: how many lines it has, and how each is
      shown. */
  datatype Source = Source(lines: int, view: int -> Line)

  datatype FindingText = FindingText(before: seq<Text>, lines: seq<Text>, after: seq<Text>, cost: nat, masked: bool,
                                     complete: bool)

  const NO_TEXT := FindingText([], [], [], 0, false, false)

  /** A finding as answered: its text, or none past the budget. */
  datatype Shown = Shown(before: seq<Text>, lines: seq<Text>, after: seq<Text>, masked: bool, truncated: bool)

  // ---------------------------------------------------------------------
  // The text of one finding.

  function FirstLine(f: Span, c: Context): int {
    Max(1, f.startLine - c.Before())
  }

  /** How many lines a finding's window has: from its first line to its last,
      as far as the text goes. */
  function WindowLen(f: Span, c: Context, s: Source): nat {
    Max(Min(f.endLine + c.After(), s.lines) - FirstLine(f, c) + 1, 0)
  }

  /** The text of a finding with one more line. */
  function WithLine(t: FindingText, f: Span, c: Context, number: int, line: Line): FindingText {
    FindingText(if number < f.startLine then t.before + [line.text] else t.before,
                if f.startLine <= number <= f.endLine then t.lines + [line.text] else t.lines,
                if number >= f.startLine && number > f.endLine then t.after + [line.text] else t.after,
                t.cost + line.Cost(), t.masked || line.masked, t.complete || number >= f.endLine + c.After())
  }

  /** The text of the first n lines of a finding's window. */
  function TextOf(f: Span, c: Context, s: Source, n: nat): FindingText {
    if n == 0 then NO_TEXT
    else
      var number := FirstLine(f, c) + n - 1;
      WithLine(TextOf(f, c, s, n - 1), f, c, number, s.view(number))
  }

  /** A finding's whole text. */
  function WholeText(f: Span, c: Context, s: Source): FindingText {
    TextOf(f, c, s, WindowLen(f, c, s))
  }

  lemma {:induction false} TextGrows(f: Span, c: Context, s: Source, m: nat, n: nat)
    requires m <= n
    ensures TextOf(f, c, s, m).cost <= TextOf(f, c, s, n).cost
    decreases n - m
  {
    if m < n {
      TextGrows(f, c, s, m, n - 1);
    }
  }

  /** A text is complete only with the last line of its window. */
  lemma {:induction false} CompleteIsWhole(f: Span, c: Context, s: Source, n: nat)
    requires n <= WindowLen(f, c, s) && TextOf(f, c, s, n).complete
    ensures n == WindowLen(f, c, s)
  {
    if n > 0 && FirstLine(f, c) + n - 1 < f.endLine + c.After() {
      CompleteIsWhole(f, c, s, n - 1);
    }
  }

  // ---------------------------------------------------------------------
  // A finding's text, line by line of the source.

  /** The lines of a text from one number to another, as they are shown. */
  function Views(s: Source, from: int, to: int): (r: seq<Text>)
    ensures |r| == Max(to - from + 1, 0)
  {
    seq(Max(to - from + 1, 0), i => s.view(from + i).text)
  }

  function LinesCost(s: Source, from: int, to: int): nat
    decreases to - from + 1
  {
    if to < from then 0 else LinesCost(s, from, to - 1) + |s.view(to).text| + 1
  }

  /** A finding of a text: on lines of it. */
  predicate InText(f: Span, s: Source) {
    1 <= f.startLine <= f.endLine <= s.lines
  }

  /** The first and the last line shown of a finding: as many as asked for
      before and after it, none for a negative number and 2^30 at most, and no
      further than the text goes. */
  function FirstShown(f: Span, c: Context): int {
    Max(1, f.startLine - Max(Min(c.before, 1073741824), 0))
  }

  function LastShown(f: Span, c: Context, s: Source): int {
    Min(f.endLine + Max(Min(c.after, 1073741824), 0), s.lines)
  }

  /** The parts of a finding's text: before it, its own lines, after it. */
  ghost predicate HasLines(before: seq<Text>, lines: seq<Text>, after: seq<Text>, f: Span, c: Context, s: Source) {
    && before == Views(s, FirstShown(f, c), f.startLine - 1)
    && lines == Views(s, f.startLine, f.endLine)
    && after == Views(s, f.endLine + 1, LastShown(f, c, s))
  }

  ghost predicate AnyMasked(s: Source, from: int, to: int) {
    exists n :: from <= n <= to && s.view(n).masked
  }

  lemma ViewsMore(s: Source, from: int, to: int)
    requires from <= to
    ensures Views(s, from, to) == Views(s, from, to - 1) + [s.view(to).text]
    ensures LinesCost(s, from, to) == LinesCost(s, from, to - 1) + s.view(to).Cost()
    ensures AnyMasked(s, from, to) <==> AnyMasked(s, from, to - 1) || s.view(to).masked
  {
    if s.view(to).masked {
      assert from <= to <= to && s.view(to).masked;
    }
  }

  /** The window of a finding is what is shown of it. */
  lemma WindowIsShown(f: Span, c: Context, s: Source)
    requires InText(f, s)
    ensures FirstLine(f, c) == FirstShown(f, c) <= f.startLine && f.endLine <= LastShown(f, c, s)
    ensures WindowLen(f, c, s) == LastShown(f, c, s) - FirstShown(f, c) + 1
  {
  }

  /** The text t has the lines from first to last, each in its place. */
  ghost predicate HasUpTo(t: FindingText, f: Span, s: Source, first: int, last: int) {
    && t.before == Views(s, first, Min(last, f.startLine - 1))
    && t.lines == Views(s, f.startLine, Min(last, f.endLine))
    && t.after == Views(s, f.endLine + 1, last)
    && t.cost == LinesCost(s, first, last) && (t.masked <==> AnyMasked(s, first, last))
  }

  lemma HasNone(f: Span, s: Source, first: int)
    requires first <= f.startLine <= f.endLine
    ensures HasUpTo(NO_TEXT, f, s, first, first - 1)
  {
  }

  lemma HasOneMore(t: FindingText, f: Span, c: Context, s: Source, first: int, number: int)
    requires HasUpTo(t, f, s, first, number - 1) && first <= f.startLine <= f.endLine && first <= number
    ensures HasUpTo(WithLine(t, f, c, number, s.view(number)), f, s, first, number)
  {
    ViewsMore(s, first, number);
    if f.startLine <= number <= f.endLine {
      ViewsMore(s, f.startLine, number);
    } else if number > f.endLine {
      ViewsMore(s, f.endLine + 1, number);
    }
    hide Views, LinesCost, AnyMasked, Line.Cost;
  }

  /** The text after n lines of the window. */
  lemma {:induction false} TextHasLines(f: Span, c: Context, s: Source, n: nat)
    requires InText(f, s) && n <= WindowLen(f, c, s)
    ensures HasUpTo(TextOf(f, c, s, n), f, s, FirstShown(f, c), FirstShown(f, c) + n - 1)
  {
    WindowIsShown(f, c, s);
    hide HasUpTo, WithLine, FirstLine, FirstShown, LastShown, WindowLen;
    if n == 0 {
      HasNone(f, s, FirstShown(f, c));
    } else {
      TextHasLines(f, c, s, n - 1);
      HasOneMore(TextOf(f, c, s, n - 1), f, c, s, FirstShown(f, c), FirstShown(f, c) + n - 1);
    }
  }

  /** The whole text of a finding: the lines asked for before it, its own, and
      those asked for after it, each as shown and in order; it costs what they
      do, and a mask is in it exactly when one is in any of them. */
  lemma WholeTextHasLines(f: Span, c: Context, s: Source)
    requires 1 <= f.startLine <= f.endLine <= s.lines
    ensures var t, first, last := WholeText(f, c, s), FirstShown(f, c), LastShown(f, c, s);
            && HasLines(t.before, t.lines, t.after, f, c, s)
            && t.cost == LinesCost(s, first, last) && (t.masked <==> AnyMasked(s, first, last))
  {
    WindowIsShown(f, c, s);
    TextHasLines(f, c, s, WindowLen(f, c, s));
    hide TextOf, Views, LinesCost, AnyMasked, FirstShown, LastShown, WindowLen, FirstLine;
  }

  // ---------------------------------------------------------------------
  // What fits a budget.

  function CostOf(spans: seq<Span>, c: Context, s: Source, k: nat): nat
    requires k <= |spans|
  {
    if k == 0 then 0 else CostOf(spans, c, s, k - 1) + WholeText(spans[k - 1], c, s).cost
  }

  lemma {:induction false} CostGrows(spans: seq<Span>, c: Context, s: Source, j: nat, k: nat)
    requires j <= k <= |spans|
    ensures CostOf(spans, c, s, j) <= CostOf(spans, c, s, k)
    decreases k - j
  {
    if j < k {
      CostGrows(spans, c, s, j, k - 1);
    }
  }

  /** The first k findings cost at most the budget together, and any more of
      them cost more than it. */
  ghost predicate IsLargestFit(spans: seq<Span>, c: Context, s: Source, budget: int, k: nat) {
    && k <= |spans| && CostOf(spans, c, s, k) <= budget
    && forall m :: k < m <= |spans| ==> CostOf(spans, c, s, m) > budget
  }

  /** The findings answered: the first k with their texts, the others
      truncated. */
  ghost predicate ShowsFirst(shown: seq<Shown>, was: seq<Shown>, spans: seq<Span>, c: Context, s: Source, k: nat) {
    && |shown| == |was| == |spans|
    && (forall i :: 0 <= i < |spans| && i < k ==>
          var t := WholeText(spans[i], c, s);
          shown[i] == Shown(t.before, t.lines, t.after, was[i].masked || t.masked, was[i].truncated))
    && (forall i :: k <= i < |spans| ==> shown[i] == Shown([], [], [], was[i].masked, true))
  }

  /** The findings answered, by their lines: the first k have theirs, and a
      mask where one of the lines has one. */
  ghost predicate ShowsLines(shown: seq<Shown>, was: seq<Shown>, spans: seq<Span>, c: Context, s: Source, k: nat) {
    && |shown| == |was| == |spans|
    && forall i :: 0 <= i < |spans| && i < k && 1 <= spans[i].startLine <= spans[i].endLine <= s.lines ==>
         && HasLines(shown[i].before, shown[i].lines, shown[i].after, spans[i], c, s)
         && (shown[i].masked <==> was[i].masked || AnyMasked(s, FirstShown(spans[i], c), LastShown(spans[i], c, s)))
  }

  lemma ShownHaveLines(shown: seq<Shown>, was: seq<Shown>, spans: seq<Span>, c: Context, s: Source, k: nat)
    requires ShowsFirst(shown, was, spans, c, s, k)
    ensures ShowsLines(shown, was, spans, c, s, k)
  {
    forall i | 0 <= i < |spans| && i < k && 1 <= spans[i].startLine <= spans[i].endLine <= s.lines
      ensures HasLines(shown[i].before, shown[i].lines, shown[i].after, spans[i], c, s)
      ensures shown[i].masked <==> was[i].masked || AnyMasked(s, FirstShown(spans[i], c), LastShown(spans[i], c, s))
    {
      WholeTextHasLines(spans[i], c, s);
    }
    hide WholeText, HasLines, AnyMasked;
  }

  /** The text taken by the first k findings. */
  function Total(texts: seq<FindingText>, k: nat): nat
    requires k <= |texts|
  {
    if k == 0 then 0 else Total(texts, k - 1) + texts[k - 1].cost
  }

  function Completed(texts: seq<FindingText>, k: nat): nat
    requires k <= |texts|
  {
    if k == 0 then 0 else Completed(texts, k - 1) + (if texts[k - 1].complete then 1 else 0)
  }

  lemma {:induction false} TotalsOfUpdate(texts: seq<FindingText>, i: nat, t: FindingText, k: nat)
    requires i < |texts| && k <= |texts|
    ensures Total(texts[i := t], k) == Total(texts, k) + (if i < k then t.cost - texts[i].cost else 0)
    ensures Completed(texts[i := t], k) == Completed(texts, k)
            + (if i < k then (if t.complete then 1 else 0) - (if texts[i].complete then 1 else 0) else 0)
  {
    if k > 0 {
      TotalsOfUpdate(texts, i, t, k - 1);
    }
  }

  lemma {:induction false} AllCompleted(texts: seq<FindingText>, k: nat)
    requires k <= |texts|
    ensures Completed(texts, k) <= k
    ensures Completed(texts, k) == k ==> forall i :: 0 <= i < k ==> texts[i].complete
  {
    if k > 0 {
      AllCompleted(texts, k - 1);
    }
  }

  // ---------------------------------------------------------------------
  // Filling one file's findings.

  datatype Action = SpanContinue | SpanDone | StopReading

  /** What fill keeps of one file while its lines come. */
  class Filling {
    const spans: seq<Span>
    const context: Context
    const source: Source
    const remaining: int
    var texts: seq<FindingText>
    /** spans[..fits] still have texts; taken is what those cost, complete
        counts those with their last line. */
    var fits: nat
    var taken: int
    var complete: int
    /** The view of line cachedNumber, unless that is 0. */
    var cachedNumber: int
    var cached: Line
    /** How many lines of its window each finding was given. */
    ghost var got: seq<nat>

    /** Each finding that fits has the text of the lines it got; the others
        have none, and the first of them cannot fit. */
    ghost predicate TextsTrue()
      reads this
    {
      && |texts| == |spans| == |got| && fits <= |spans|
      && (forall i :: 0 <= i < |spans| ==> got[i] <= WindowLen(spans[i], context, source))
      && (forall i :: 0 <= i < fits ==> texts[i] == TextOf(spans[i], context, source, got[i]))
      && (forall i :: fits <= i < |spans| ==> texts[i] == NO_TEXT)
    }

    ghost predicate CountsTrue()
      reads this
    {
      && fits <= |texts| && taken == Total(texts, fits) && complete == Completed(texts, fits)
      && (fits < |spans| ==> CostOf(spans, context, source, fits + 1) > remaining)
    }

    ghost predicate Valid()
      reads this
    {
      && TextsTrue() && CountsTrue() && 0 <= taken <= remaining
      && (cachedNumber != 0 ==> cached == source.view(cachedNumber))
    }

    constructor (spans: seq<Span>, context: Context, source: Source, remaining: int)
      requires remaining >= 0
      ensures Valid() && this.spans == spans && this.context == context && this.source == source
      ensures this.remaining == remaining && fits == |spans| && got == seq(|spans|, _ => 0)
    {
      this.spans, this.context, this.source, this.remaining := spans, context, source, remaining;
      texts, got := seq(|spans|, _ => NO_TEXT), seq(|spans|, _ => 0);
      fits, taken, complete, cachedNumber, cached := |spans|, 0, 0, 0, Line([], false);
      new;
      NoTotal(texts, |spans|);
    }

    /** Drops the last findings that fit until the text taken does. */
    method WalkBack()
      requires TextsTrue() && CountsTrue() && remaining >= 0
      modifies this`fits, this`taken, this`complete, this`texts
      ensures TextsTrue() && CountsTrue() && 0 <= taken <= remaining && fits <= old(fits)
      ensures forall i :: 0 <= i < fits ==> texts[i] == old(texts)[i]
    {
      ghost var was := texts;
      while taken > remaining
        invariant TextsTrue() && CountsTrue() && fits <= old(fits) && |was| == |texts|
        invariant forall i :: 0 <= i < fits ==> texts[i] == was[i]
        decreases fits
      {
        DropLast();
      }
    }

    /** Drops the last finding that fits: with its text and those before it
        past the budget, its whole text cannot fit. */
    method DropLast()
      requires TextsTrue() && CountsTrue() && taken > remaining >= 0
      modifies this`fits, this`taken, this`complete, this`texts
      ensures TextsTrue() && CountsTrue() && fits == old(fits) - 1
      ensures forall i :: 0 <= i < fits ==> texts[i] == old(texts)[i]
    {
      hide WholeText, TextOf, WindowLen;
      TakenIsPart(spans, context, source, texts, got, fits);
      fits := fits - 1;
      taken := taken - texts[fits].cost;
      if texts[fits].complete {
        complete := complete - 1;
      }
      TotalsOfUpdate(texts, fits, NO_TEXT, fits);
      texts := texts[fits := NO_TEXT];
    }

    /** Adds a line to finding i's text, the next of its window: what is held
        then is the budget and this line at most. */
    method AddLine(i: nat, number: int)
      requires Valid() && i < fits && number == FirstLine(spans[i], context) + got[i]
      requires got[i] < WindowLen(spans[i], context, source)
      modifies this
      ensures TextsTrue() && CountsTrue() && fits == old(fits)
      ensures taken <= remaining + source.view(number).Cost()
      ensures cachedNumber != 0 ==> cached == source.view(cachedNumber)
      ensures got == old(got)[i := old(got)[i] + 1]
    {
      hide WindowLen, FirstLine, TextOf, WithLine, Total, Completed, CostOf, Line.Cost;
      NextText(spans[i], context, source, got[i]);
      if cachedNumber != number {
        cachedNumber, cached := number, source.view(number);
      }
      ShownLine(number);
      var t := WithLine(texts[i], spans[i], context, number, cached);
      TotalsOfUpdate(texts, i, t, fits);
      taken := taken + cached.Cost();
      if t.complete && !texts[i].complete {
        complete := complete + 1;
      }
      texts, got := texts[i := t], got[i := got[i] + 1];
    }

    /** The line kept is the one wanted. */
    lemma ShownLine(number: int)
      requires cachedNumber == number && (cachedNumber != 0 ==> cached == source.view(cachedNumber)) && number >= 1
      ensures cached == source.view(number)
    {
    }

    /** Takes a line for finding i, the next of its window. What fits then is
        decided at once. */
    method Take(i: nat, number: int)
      requires Valid() && i < fits && number == FirstLine(spans[i], context) + got[i]
      requires got[i] < WindowLen(spans[i], context, source)
      modifies this
      ensures Valid() && fits <= old(fits) && got == old(got)[i := old(got)[i] + 1]
    {
      AddLine(i, number);
      hide Filling.TextsTrue, Filling.CountsTrue;
      WalkBack();
    }

    /** The visitor of a line for finding i, the next of its window. */
    method Visit(i: nat, number: int) returns (action: Action)
      requires Valid() && i < |spans|
      requires i < fits ==>
                 number == FirstLine(spans[i], context) + got[i] && got[i] < WindowLen(spans[i], context, source)
      modifies this
      ensures Valid() && fits <= old(fits)
      ensures got == if i < old(fits) then old(got)[i := old(got)[i] + 1] else old(got)
      ensures action == SpanDone <==> i >= fits
      ensures action == StopReading <==> i < fits < |spans| && complete == fits
    {
      if i >= fits {
        return SpanDone;
      }
      Take(i, number);
      if i >= fits {
        return SpanDone;
      }
      if fits < |spans| && complete == fits {
        return StopReading;
      }
      return SpanContinue;
    }
  }

  /** The text of one more line of a window. */
  lemma NextText(f: Span, c: Context, s: Source, n: nat)
    ensures var number := FirstLine(f, c) + n;
            && number >= 1
            && var was, line := TextOf(f, c, s, n), s.view(number);
            var t := WithLine(was, f, c, number, line);
            t == TextOf(f, c, s, n + 1) && t.cost == was.cost + line.Cost() && (was.complete ==> t.complete)
  {
  }

  lemma {:induction false} NoTotal(texts: seq<FindingText>, k: nat)
    requires k <= |texts| && forall i :: 0 <= i < k ==> texts[i] == NO_TEXT
    ensures Total(texts, k) == 0 && Completed(texts, k) == 0
  {
    if k > 0 {
      NoTotal(texts, k - 1);
    }
  }

  /** What findings took so far is no more than their whole texts. */
  lemma {:induction false} TakenIsPart(spans: seq<Span>, c: Context, s: Source, texts: seq<FindingText>, got: seq<nat>, k: nat)
    requires |texts| == |spans| == |got| && k <= |spans|
    requires forall i :: 0 <= i < |spans| ==> got[i] <= WindowLen(spans[i], c, s)
    requires forall i :: 0 <= i < k ==> texts[i] == TextOf(spans[i], c, s, got[i])
    ensures Total(texts, k) <= CostOf(spans, c, s, k)
  {
    if k > 0 {
      TakenIsPart(spans, c, s, texts, got, k - 1);
      TextGrows(spans[k - 1], c, s, got[k - 1], WindowLen(spans[k - 1], c, s));
    }
  }

  // ---------------------------------------------------------------------
  // One file.

  /** How many of the first k entries of the order are i. */
  function Times(order: seq<nat>, k: nat, i: nat): nat
    requires k <= |order|
  {
    if k == 0 then 0 else Times(order, k - 1, i) + (if order[k - 1] == i then 1 else 0)
  }

  /** An interleaving of the spans' lines: every entry is a span, and each
      span comes as often as its window has lines, or more. */
  ghost predicate Interleaves(order: seq<nat>, spans: seq<Span>, c: Context, s: Source) {
    && (forall k :: 0 <= k < |order| ==> order[k] < |spans|)
    && (forall i: nat :: i < |spans| ==> Times(order, |order|, i) >= WindowLen(spans[i], c, s))
  }

  /** After k entries of the order each span that is not done was given the
      lines its entries stand for. */
  ghost predicate AsOrdered(spans: seq<Span>, c: Context, s: Source, order: seq<nat>, k: nat, given: seq<nat>, done: seq<bool>)
    requires k <= |order|
  {
    && |done| == |given| == |spans|
    && forall i :: 0 <= i < |spans| && !done[i] ==> given[i] == Min(WindowLen(spans[i], c, s), Times(order, k, i))
  }

  /** The findings that fit are not done and have the lines given. */
  ghost predicate HasGiven(fill: Filling, given: seq<nat>, done: seq<bool>)
    reads fill
  {
    && fill.Valid() && |done| == |given| == |fill.spans| == |fill.got| && fill.fits <= |fill.spans|
    && (forall i :: 0 <= i < fill.fits ==> !done[i] && fill.got[i] == given[i])
  }

  /** The pass after k entries of the order. */
  ghost predicate Follows(fill: Filling, order: seq<nat>, k: nat, given: seq<nat>, done: seq<bool>)
    requires k <= |order|
    reads fill
  {
    HasGiven(fill, given, done) && AsOrdered(fill.spans, fill.context, fill.source, order, k, given, done)
  }

  /** The next entry gives its span a line more, when it has one to come. */
  lemma OrderedNext(spans: seq<Span>, c: Context, s: Source, order: seq<nat>, k: nat, given: seq<nat>, done: seq<bool>,
                    given': seq<nat>, done': seq<bool>)
    requires k < |order| && AsOrdered(spans, c, s, order, k, given, done) && order[k] < |spans|
    requires var i := order[k];
             && given' == (if !done[i] && given[i] < WindowLen(spans[i], c, s) then given[i := given[i] + 1] else given)
             && (done' == done || done' == done[i := true])
    ensures AsOrdered(spans, c, s, order, k + 1, given', done')
  {
    hide WindowLen;
  }

  lemma FollowsParts(fill: Filling, order: seq<nat>, k: nat, given: seq<nat>, done: seq<bool>)
    requires k <= |order|
    ensures Follows(fill, order, k, given, done) <==>
            HasGiven(fill, given, done) && AsOrdered(fill.spans, fill.context, fill.source, order, k, given, done)
  {
    hide AsOrdered;
  }

  /** A line of span i's window, the next it was not given. */
  method Hand(fill: Filling, i: nat, given: seq<nat>, done: seq<bool>)
    returns (given': seq<nat>, done': seq<bool>, stop: bool)
    requires HasGiven(fill, given, done) && i < |fill.spans| == |given| == |done| && !done[i]
    requires given[i] < WindowLen(fill.spans[i], fill.context, fill.source)
    modifies fill
    ensures HasGiven(fill, given', done') && given' == given[i := given[i] + 1]
    ensures done' == done || done' == done[i := true]
    ensures stop ==> fill.complete == fill.fits
  {
    hide WindowLen, FirstLine, Filling.TextsTrue, Filling.CountsTrue;
    var action := fill.Visit(i, FirstLine(fill.spans[i], fill.context) + given[i]);
    given' := given[i := given[i] + 1];
    done' := if action == SpanDone then done[i := true] else done;
    stop := action == StopReading;
    GotLen(fill);
  }

  lemma GotLen(fill: Filling)
    requires fill.Valid()
    ensures |fill.spans| == |fill.got| && fill.fits <= |fill.spans|
  {
  }

  lemma GivenLen(fill: Filling, given: seq<nat>, done: seq<bool>)
    requires HasGiven(fill, given, done)
    ensures |fill.spans| == |given| == |done|
  {
  }

  /** One line of the pass: handed to the span the order says, unless that is
      done or has its last line. */
  method ReadNext(fill: Filling, order: seq<nat>, k: nat, given: seq<nat>, done: seq<bool>)
    returns (given': seq<nat>, done': seq<bool>, stop: bool)
    requires k < |order| && Follows(fill, order, k, given, done) && order[k] < |fill.spans|
    modifies fill
    ensures Follows(fill, order, k + 1, given', done')
    ensures stop ==> fill.complete == fill.fits
  {
    hide *;
    FollowsParts(fill, order, k, given, done);
    GivenLen(fill, given, done);
    var i := order[k];
    given', done', stop := given, done, false;
    if !done[i] && given[i] < WindowLen(fill.spans[i], fill.context, fill.source) {
      given', done', stop := Hand(fill, i, given, done);
    }
    OrderedNext(fill.spans, fill.context, fill.source, order, k, given, done, given', done');
    FollowsParts(fill, order, k + 1, given', done');
  }

  /** ReadLineSpans: the lines of every span's window, in one pass, until the
      visitor stops it. The findings that fit then have all their lines. */
  method ReadSpans(fill: Filling, order: seq<nat>)
    requires fill.Valid() && fill.fits == |fill.spans| && (forall i :: 0 <= i < |fill.got| ==> fill.got[i] == 0)
    requires Interleaves(order, fill.spans, fill.context, fill.source)
    modifies fill
    ensures fill.Valid() && fill.fits <= |fill.spans| == |fill.texts|
    ensures forall i :: 0 <= i < fill.fits ==> fill.texts[i] == WholeText(fill.spans[i], fill.context, fill.source)
  {
    var given, done := seq(|fill.spans|, _ => 0), seq(|fill.spans|, _ => false);
    var stop := false;
    PassStarts(fill, order, given, done);
    var k := 0;
    hide *;
    while k < |order| && !stop
      invariant 0 <= k <= |order| && Follows(fill, order, k, given, done)
      invariant stop ==> fill.complete == fill.fits
    {
      EntryIsSpan(fill, order, k);
      given, done, stop := ReadNext(fill, order, k, given, done);
      k := k + 1;
    }
    PassEnds(fill, order, k, given, done);
  }

  lemma PassStarts(fill: Filling, order: seq<nat>, given: seq<nat>, done: seq<bool>)
    requires fill.Valid() && (forall i :: 0 <= i < |fill.got| ==> fill.got[i] == 0)
    requires |given| == |done| == |fill.spans|
    requires forall i :: 0 <= i < |fill.spans| ==> given[i] == 0 && !done[i]
    ensures Follows(fill, order, 0, given, done)
  {
    hide Total, Completed, CostOf, TextOf, WindowLen;
  }

  lemma EntryIsSpan(fill: Filling, order: seq<nat>, k: nat)
    requires k < |order| && Interleaves(order, fill.spans, fill.context, fill.source)
    ensures order[k] < |fill.spans|
  {
  }

  lemma PassEnds(fill: Filling, order: seq<nat>, k: nat, given: seq<nat>, done: seq<bool>)
    requires k <= |order| && Follows(fill, order, k, given, done)
    requires Interleaves(order, fill.spans, fill.context, fill.source)
    requires k == |order| || fill.complete == fill.fits
    ensures fill.Valid() && fill.fits <= |fill.spans| == |fill.texts|
    ensures forall i :: 0 <= i < fill.fits ==> fill.texts[i] == WholeText(fill.spans[i], fill.context, fill.source)
  {
    AllCompleted(fill.texts, fill.fits);
    forall i | 0 <= i < fill.fits
      ensures fill.got[i] == WindowLen(fill.spans[i], fill.context, fill.source)
    {
      if k < |order| {
        CompleteIsWhole(fill.spans[i], fill.context, fill.source, fill.got[i]);
      }
    }
    hide WindowLen, TextOf, Total, Completed, CostOf;
  }

  /** With all their lines, the findings that fit are as many as can. */
  lemma FitsAreMost(fill: Filling)
    requires fill.Valid() && fill.fits <= |fill.spans|
    requires forall i :: 0 <= i < fill.fits ==> fill.texts[i] == WholeText(fill.spans[i], fill.context, fill.source)
    ensures IsLargestFit(fill.spans, fill.context, fill.source, fill.remaining, fill.fits)
    ensures fill.taken == CostOf(fill.spans, fill.context, fill.source, fill.fits)
  {
    hide WholeText, TextOf, WindowLen;
    WholeTotal(fill.spans, fill.context, fill.source, fill.texts, fill.fits);
    forall m | fill.fits < m <= |fill.spans|
      ensures CostOf(fill.spans, fill.context, fill.source, m) > fill.remaining
    {
      CostGrows(fill.spans, fill.context, fill.source, fill.fits + 1, m);
    }
  }

  lemma {:induction false} WholeTotal(spans: seq<Span>, c: Context, s: Source, texts: seq<FindingText>, k: nat)
    requires |texts| == |spans| && k <= |spans|
    requires forall i :: 0 <= i < k ==> texts[i] == WholeText(spans[i], c, s)
    ensures Total(texts, k) == CostOf(spans, c, s, k)
  {
    if k > 0 {
      WholeTotal(spans, c, s, texts, k - 1);
    }
  }

  // ---------------------------------------------------------------------
  // One budget over the files of an answer.

  /** A file's findings: their spans in order, its scanned text, what is
      known of them already, and the order its lines come in. */
  datatype FileFindings = FileFindings(spans: seq<Span>, source: Source, known: seq<Shown>, order: seq<nat>)

  ghost predicate Readable(f: FileFindings, c: Context) {
    |f.known| == |f.spans| && Interleaves(f.order, f.spans, c, f.source)
  }

  datatype Failure = NoScannedEnd | SpanPastEnd

  /** A file with findings whose scanned text has no end, or ends before one
      of them. */
  predicate Unreadable(f: FileFindings) {
    f.spans != [] && (f.source.lines <= 0 || exists i :: 0 <= i < |f.spans| && f.spans[i].endLine > f.source.lines)
  }

  class TraceText {
    const context: Context
    var remaining: int
    var spent: bool

    ghost predicate Valid()
      reads this
    {
      remaining >= 0
    }

    constructor (context: Context, budget: int)
      requires budget >= 0
      ensures Valid() && this.context == context && remaining == budget && !spent
    {
      this.context, remaining, spent := context, budget, false;
    }

    /** Marks the findings from one on as past the budget. */
    method TruncateFrom(known: seq<Shown>, from: nat) returns (shown: seq<Shown>)
      ensures |shown| == |known|
      ensures forall i :: 0 <= i < |known| && i < from ==> shown[i] == known[i]
      ensures forall i :: from <= i < |known| ==> shown[i] == Shown([], [], [], known[i].masked, true)
    {
      shown := known;
      var i := from;
      while i < |shown|
        invariant |shown| == |known| && from <= i
        invariant forall j :: 0 <= j < |known| && (j < from || i <= j) ==> shown[j] == known[j]
        invariant forall j :: from <= j < i && j < |known| ==> shown[j] == Shown([], [], [], known[j].masked, true)
      {
        shown := shown[i := Shown([], [], [], shown[i].masked, true)];
        i := i + 1;
      }
    }

    /** Fills one file's findings. The first k keep their texts, k the most
        that fit what is left of the budget; the others lose theirs, and so
        does every finding of the files after. */
    method Fill(f: FileFindings) returns (shown: seq<Shown>, failure: Option<Failure>, ghost k: nat)
      requires Valid() && Readable(f, context)
      modifies this
      ensures Valid()
      ensures failure.Some? ==> remaining == old(remaining) && spent == old(spent) && shown == f.known
      ensures failure.Some? <==> !old(spent) && Unreadable(f)
      ensures failure.None? ==>
                && k <= |f.spans| && ShowsFirst(shown, f.known, f.spans, context, f.source, k)
                && ShowsLines(shown, f.known, f.spans, context, f.source, k)
                && (if old(spent) then k == 0 && remaining == old(remaining)
                    else && IsLargestFit(f.spans, context, f.source, old(remaining), k)
                         && remaining == old(remaining) - CostOf(f.spans, context, f.source, k))
                && (spent <==> old(spent) || k < |f.spans|)
    {
      k, failure, shown := 0, None, f.known;
      if spent || f.spans == [] {
        shown := TruncateFrom(f.known, 0);
        ShownHaveLines(shown, f.known, f.spans, context, f.source, k);
        return;
      }
      if f.source.lines <= 0 {
        failure := Some(NoScannedEnd);
        return;
      }
      if exists i :: 0 <= i < |f.spans| && f.spans[i].endLine > f.source.lines {
        failure := Some(SpanPastEnd);
        return;
      }
      shown, k := FillRest(f);
      ShownHaveLines(shown, f.known, f.spans, context, f.source, k);
    }

    /** Fills a file's findings that may have text. */
    method FillRest(f: FileFindings) returns (shown: seq<Shown>, ghost k: nat)
      requires Valid() && !spent && Readable(f, context)
      modifies this
      ensures Valid() && k <= |f.spans| && ShowsFirst(shown, f.known, f.spans, context, f.source, k)
      ensures IsLargestFit(f.spans, context, f.source, old(remaining), k)
      ensures remaining == old(remaining) - CostOf(f.spans, context, f.source, k)
      ensures spent <==> k < |f.spans|
    {
      hide IsLargestFit, CostOf, WholeText, Filling.TextsTrue, Filling.CountsTrue, Interleaves;
      var fill := new Filling(f.spans, context, f.source, remaining);
      ReadSpans(fill, f.order);
      FitsAreMost(fill);
      k := fill.fits;
      shown := ShowFits(fill, f.known);
      remaining := remaining - fill.taken;
      if fill.fits < |f.spans| {
        spent := true;
        shown := TruncateFrom(shown, fill.fits);
      }
    }
  }

  /** Sets the texts of the findings that fit. */
  method ShowFits(fill: Filling, known: seq<Shown>) returns (shown: seq<Shown>)
    requires fill.fits <= |fill.texts| == |known|
    ensures |shown| == |known|
    ensures forall i :: 0 <= i < fill.fits ==>
              var t := fill.texts[i];
              shown[i] == Shown(t.before, t.lines, t.after, known[i].masked || t.masked, known[i].truncated)
    ensures forall i :: fill.fits <= i < |known| ==> shown[i] == known[i]
  {
    shown := known;
    for i := 0 to fill.fits
      invariant |shown| == |known|
      invariant forall j :: 0 <= j < i ==>
                  var t := fill.texts[j];
                  shown[j] == Shown(t.before, t.lines, t.after, known[j].masked || t.masked, known[j].truncated)
      invariant forall j :: i <= j < |known| ==> shown[j] == known[j]
    {
      var t := fill.texts[i];
      shown := shown[i := Shown(t.before, t.lines, t.after, shown[i].masked || t.masked, shown[i].truncated)];
    }
  }

  /** The largest prefix of the costs that fits, taken one by one. */
  function Largest(costs: seq<nat>, budget: int): (k: nat)
    ensures k <= |costs|
  {
    if |costs| == 0 || costs[0] > budget then 0 else 1 + Largest(costs[1..], budget - costs[0])
  }

  function Sum(costs: seq<nat>): nat {
    if |costs| == 0 then 0 else costs[0] + Sum(costs[1..])
  }

  /** A prefix is within the largest one exactly when its sum fits. */
  lemma {:induction false} LargestIsLargest(costs: seq<nat>, budget: int, m: nat)
    requires budget >= 0 && m <= |costs|
    ensures m <= Largest(costs, budget) <==> Sum(costs[..m]) <= budget
  {
    if m > 0 {
      assert costs[..m][1..] == costs[1..][..m - 1];
      if costs[0] <= budget {
        LargestIsLargest(costs[1..], budget - costs[0], m - 1);
      }
    }
  }

  lemma {:induction false} LargestOfTwo(a: seq<nat>, b: seq<nat>, budget: int)
    requires budget >= 0
    ensures Largest(a + b, budget)
            == if Largest(a, budget) < |a| then Largest(a, budget) else |a| + Largest(b, budget - Sum(a))
    ensures Largest(a, budget) == |a| ==> Sum(a) <= budget
  {
    if |a| == 0 {
      assert a + b == b;
    } else {
      assert (a + b)[1..] == a[1..] + b;
      if a[0] <= budget {
        LargestOfTwo(a[1..], b, budget - a[0]);
      }
    }
  }

  /** The costs of a file's findings. */
  function Costs(spans: seq<Span>, c: Context, s: Source): (r: seq<nat>)
    ensures |r| == |spans|
    ensures forall i :: 0 <= i < |spans| ==> r[i] == WholeText(spans[i], c, s).cost
  {
    seq(|spans|, i requires 0 <= i < |spans| => WholeText(spans[i], c, s).cost)
  }

  lemma {:induction false} SumOfSnoc(a: seq<nat>, x: nat)
    ensures Sum(a + [x]) == Sum(a) + x
  {
    if |a| > 0 {
      SumOfSnoc(a[1..], x);
      assert (a + [x])[1..] == a[1..] + [x];
    }
  }

  lemma {:induction false} SumOfTwo(a: seq<nat>, b: seq<nat>)
    ensures Sum(a + b) == Sum(a) + Sum(b)
  {
    if |a| == 0 {
      assert a + b == b;
    } else {
      SumOfTwo(a[1..], b);
      assert (a + b)[1..] == a[1..] + b;
    }
  }

  lemma {:induction false} CostsSum(spans: seq<Span>, c: Context, s: Source, k: nat)
    requires k <= |spans|
    ensures Sum(Costs(spans, c, s)[..k]) == CostOf(spans, c, s, k)
  {
    hide WholeText;
    if k > 0 {
      CostsSum(spans, c, s, k - 1);
      var costs := Costs(spans, c, s);
      assert costs[..k] == costs[..k - 1] + [costs[k - 1]];
      SumOfSnoc(costs[..k - 1], costs[k - 1]);
    }
  }

  lemma FitIsLargest(spans: seq<Span>, c: Context, s: Source, budget: int, k: nat)
    requires budget >= 0 && IsLargestFit(spans, c, s, budget, k)
    ensures k == Largest(Costs(spans, c, s), budget)
    ensures k == |spans| ==> CostOf(spans, c, s, k) == Sum(Costs(spans, c, s))
  {
    var costs := Costs(spans, c, s);
    var most := Largest(costs, budget);
    CostsSum(spans, c, s, k);
    CostsSum(spans, c, s, most);
    LargestIsLargest(costs, budget, k);
    LargestIsLargest(costs, budget, most);
    assert costs[..|costs|] == costs;
    hide Largest, Sum, Costs, CostOf;
  }

  /** The costs of the findings of all files that are not skipped, in the one
      order. */
  function AllCosts(files: seq<FileFindings>, c: Context, budget: int): seq<nat> {
    if |files| == 0 then []
    else
      var before, f := AllCosts(files[..|files| - 1], c, budget), files[|files| - 1];
      if IsSkipped(f, before, budget) then before else before + Costs(f.spans, c, f.source)
  }

  /** A file is skipped when its findings cannot be read and all findings
      before it, with these costs, have their texts. */
  predicate IsSkipped(f: FileFindings, before: seq<nat>, budget: int) {
    Unreadable(f) && Sum(before) <= budget
  }

  /** How many of n things, from the one numbered from on, are among the
      first k. */
  function Among(k: nat, from: nat, n: nat): nat {
    if k <= from then 0 else if k >= from + n then n else k - from
  }

  /** Each file that is not skipped shows those of its findings that are among
      the first k of all of them. */
  ghost predicate ShowsAll(shown: seq<Option<seq<Shown>>>, files: seq<FileFindings>, c: Context, budget: int, k: nat) {
    && |shown| == |files|
    && forall i :: 0 <= i < |files| ==> ShowsFile(shown[i], files[i], AllCosts(files[..i], c, budget), c, budget, k)
  }

  /** What is shown of one file, after findings that cost so much. */
  ghost predicate ShowsFile(shown: Option<seq<Shown>>, f: FileFindings, before: seq<nat>, c: Context, budget: int, k: nat) {
    if IsSkipped(f, before, budget) then shown == None
    else
      && shown.Some? && var m := Among(k, |before|, |f.spans|);
      ShowsFirst(shown.value, f.known, f.spans, c, f.source, m) && ShowsLines(shown.value, f.known, f.spans, c, f.source, m)
  }

  /** After some files: their findings are shown up to the largest number
      that fits, and what is left of the budget is what they did not take. */
  ghost predicate Filled(t: TraceText, budget: int, shown: seq<Option<seq<Shown>>>, files: seq<FileFindings>, c: Context)
    reads t
  {
    var costs := AllCosts(files, c, budget);
    && t.Valid() && t.context == c && ShowsAll(shown, files, c, budget, Largest(costs, budget))
    && (t.spent <==> Largest(costs, budget) < |costs|)
    && (!t.spent ==> t.remaining == budget - Sum(costs))
  }

  /** One more file that is not skipped, given how its own filling went. */
  lemma OneMoreFile(budget: int, shown: seq<Option<seq<Shown>>>, files: seq<FileFindings>, f: FileFindings, more: seq<Shown>,
                    c: Context, spent: bool, remaining: int, k: nat)
    requires budget >= 0
    requires ShowsAll(shown, files, c, budget, Largest(AllCosts(files, c, budget), budget))
    requires spent <==> Largest(AllCosts(files, c, budget), budget) < |AllCosts(files, c, budget)|
    requires !spent ==> remaining == budget - Sum(AllCosts(files, c, budget))
    requires spent || !Unreadable(f)
    requires k <= |f.spans| && ShowsFirst(more, f.known, f.spans, c, f.source, k)
    requires if spent then k == 0 else IsLargestFit(f.spans, c, f.source, remaining, k)
    ensures var costs := AllCosts(files + [f], c, budget);
            && ShowsAll(shown + [Some(more)], files + [f], c, budget, Largest(costs, budget))
            && (spent || k < |f.spans| <==> Largest(costs, budget) < |costs|)
            && (!spent && k == |f.spans| ==> remaining - CostOf(f.spans, c, f.source, k) == budget - Sum(costs))
  {
    hide IsLargestFit, ShowsFirst, ShowsAll, Costs, WholeText, Unreadable, ShowsLines;
    var before, own := AllCosts(files, c, budget), Costs(f.spans, c, f.source);
    SpentIsPast(before, budget);
    CostsOfMore(files, f, c, budget);
    LargestOfTwo(before, own, budget);
    SumOfTwo(before, own);
    if !spent {
      FitIsLargest(f.spans, c, f.source, remaining, k);
    }
    ShownHaveLines(more, f.known, f.spans, c, f.source, k);
    ShowsMore(shown, files, f, Some(more), c, budget, Largest(before, budget), Largest(before + own, budget));
  }

  /** One more file that is skipped. */
  lemma OneSkipped(budget: int, shown: seq<Option<seq<Shown>>>, files: seq<FileFindings>, f: FileFindings, c: Context)
    requires budget >= 0 && Unreadable(f)
    requires ShowsAll(shown, files, c, budget, Largest(AllCosts(files, c, budget), budget))
    requires Largest(AllCosts(files, c, budget), budget) == |AllCosts(files, c, budget)|
    ensures AllCosts(files + [f], c, budget) == AllCosts(files, c, budget)
    ensures ShowsAll(shown + [None], files + [f], c, budget, Largest(AllCosts(files, c, budget), budget))
  {
    hide ShowsFirst, ShowsAll, Costs, Unreadable, ShowsLines;
    var before := AllCosts(files, c, budget);
    SpentIsPast(before, budget);
    CostsOfMore(files, f, c, budget);
    ShowsMore(shown, files, f, None, c, budget, Largest(before, budget), Largest(before, budget));
  }

  /** The budget ran out exactly when the costs are past it. */
  lemma SpentIsPast(costs: seq<nat>, budget: int)
    requires budget >= 0
    ensures Sum(costs) <= budget <==> Largest(costs, budget) == |costs|
  {
    LargestIsLargest(costs, budget, |costs|);
    assert costs[..|costs|] == costs;
  }

  lemma CostsOfMore(files: seq<FileFindings>, f: FileFindings, c: Context, budget: int)
    ensures var before := AllCosts(files, c, budget);
            AllCosts(files + [f], c, budget)
            == if IsSkipped(f, before, budget) then before else before + Costs(f.spans, c, f.source)
  {
    assert (files + [f])[..|files|] == files;
  }

  lemma ShowsMore(shown: seq<Option<seq<Shown>>>, files: seq<FileFindings>, f: FileFindings, more: Option<seq<Shown>>,
                  c: Context, budget: int, k: nat, k': nat)
    requires ShowsAll(shown, files, c, budget, k) && k <= |AllCosts(files, c, budget)|
    requires ShowsFile(more, f, AllCosts(files, c, budget), c, budget, k')
    requires k' == k || (k == |AllCosts(files, c, budget)| && k <= k')
    ensures ShowsAll(shown + [more], files + [f], c, budget, k')
  {
    var all := files + [f];
    hide ShowsFirst, ShowsLines, IsSkipped;
    forall i | 0 <= i < |all|
      ensures ShowsFile((shown + [more])[i], all[i], AllCosts(all[..i], c, budget), c, budget, k')
    {
      if i < |files| {
        assert all[..i] == files[..i];
        CostsOfPart(files, c, budget, i);
        assert ShowsFile(shown[i], files[i], AllCosts(files[..i], c, budget), c, budget, k);
      } else {
        assert all[..i] == files;
      }
    }
  }

  lemma {:induction false} CostsOfPart(files: seq<FileFindings>, c: Context, budget: int, i: nat)
    requires i < |files|
    ensures var before := AllCosts(files[..i], c, budget);
            && |before| <= |AllCosts(files, c, budget)|
            && (!IsSkipped(files[i], before, budget) ==> |before| + |files[i].spans| <= |AllCosts(files, c, budget)|)
    decreases |files|
  {
    hide IsSkipped;
    var n := |files| - 1;
    if i < n {
      CostsOfPart(files[..n], c, budget, i);
      assert files[..n][..i] == files[..i];
    }
  }

  /** The text of a whole answer. A file whose findings cannot be read is
      skipped, unless the budget ran out before it; over all others, exactly
      the first findings whose texts fit the budget together keep them, as if
      they were taken one by one, and every other finding is truncated. */
  method FillAll(files: seq<FileFindings>, context: Context, textBudget: int) returns (shown: seq<Option<seq<Shown>>>)
    requires forall i :: 0 <= i < |files| ==> Readable(files[i], context)
    ensures var budget := Max(textBudget, 0);
            ShowsAll(shown, files, context, budget, Largest(AllCosts(files, context, budget), budget))
  {
    var budget := Max(textBudget, 0);
    var t := new TraceText(context, budget);
    shown := [];
    assert files[..0] == [] && files[..|files|] == files;
    assert Filled(t, budget, shown, files[..0], context);
    hide *;
    for n := 0 to |files|
      invariant Filled(t, budget, shown, files[..n], context)
    {
      assert files[..n + 1] == files[..n] + [files[n]];
      shown := FillNext(t, budget, shown, files[..n], files[n], context);
    }
    FilledShows(t, budget, shown, files, context);
  }

  lemma FilledShows(t: TraceText, budget: int, shown: seq<Option<seq<Shown>>>, files: seq<FileFindings>, c: Context)
    requires Filled(t, budget, shown, files, c)
    ensures ShowsAll(shown, files, c, budget, Largest(AllCosts(files, c, budget), budget))
  {
  }

  method FillNext(t: TraceText, budget: int, shown: seq<Option<seq<Shown>>>, ghost files: seq<FileFindings>, f: FileFindings,
                  c: Context)
    returns (shown': seq<Option<seq<Shown>>>)
    requires budget >= 0 && Filled(t, budget, shown, files, c) && Readable(f, c)
    modifies t
    ensures Filled(t, budget, shown', files + [f], c)
  {
    var more, failure;
    ghost var k;
    hide ShowsAll, ShowsFirst, ShowsLines, IsLargestFit, CostOf, Sum, Largest, AllCosts, Readable, Unreadable;
    ghost var spent, remaining := t.spent, t.remaining;
    more, failure, k := t.Fill(f);
    if failure.None? {
      OneMoreFile(budget, shown, files, f, more, c, spent, remaining, k);
      shown' := shown + [Some(more)];
    } else {
      OneSkipped(budget, shown, files, f, c);
      shown' := shown + [None];
    }
  }
}
