/**
 * The result pager of the client's `recommend` command (main.py:142-194).
 *
 * The server's answer is a list of (product id, product URL) records. The
 * client shows nothing but "no match" for an empty list, every record and
 * then "no more" for fewer than five, and otherwise five at a time, asking
 * "see more? (y/n)" after each page. The user's answers are an input sequence;
 * what the client writes is a sequence of events, in which `Show(i)` stands
 * for the two lines that print `recs[i]`.
 */
module Pager {

  /** One record of the /recommend response (main.py:134-137). */
  datatype Record = Record(productId: string, productUrl: string)

  /** What the pager writes, in order. */
  datatype Event =
    | Show(index: nat)  // "Product ID: " recs[index].productId, "URL: " recs[index].productUrl
    | NoMatch           // "no matching product found..."
    | NoMore            // "no more recommended products..."
    | AskMore           // the prompt "Would you like to see more results? (y/n)"
    | MustAnswer        // "must answer with y or n!"
    | InputEnded        // input() found no further answer: the handler logs and returns

  function Min(x: int, y: int): int { if x <= y then x else y }

  /** The events that show records lo, lo+1, ..., hi-1. */
  function Shows(lo: nat, hi: nat): (r: seq<Event>)
    requires lo <= hi
    ensures |r| == hi - lo
    decreases hi - lo
  {
    if lo == hi then [] else [Show(lo)] + Shows(lo + 1, hi)
  }

  /** The indices lo, lo+1, ..., hi-1. */
  function Range(lo: nat, hi: nat): (r: seq<nat>)
    requires lo <= hi
    ensures |r| == hi - lo
    decreases hi - lo
  {
    if lo == hi then [] else [lo] + Range(lo + 1, hi)
  }

  /** The indices of the records an output shows, in the order shown. */
  function ShownIndices(out: seq<Event>): seq<nat>
  {
    if |out| == 0 then []
    else (if out[0].Show? then [out[0].index] else []) + ShownIndices(out[1..])
  }

  /** `Ys(k)` is k answers "y". */
  function Ys(k: nat): (r: seq<string>)
    ensures |r| == k
  {
    if k == 0 then [] else ["y"] + Ys(k - 1)
  }

  /** How one continuation question ends: go on, stop, or no answer left. */
  datatype Reply = Continue | Stop | Ended

  /** A question: its reply, how many answers it consumed, what it wrote. */
  datatype Asked = Asked(reply: Reply, used: nat, said: seq<Event>)

  /**
   * The continuation question (main.py:188-193): one answer is read; an
   * answer other than "y" or "n" is re-asked once, and the second answer is
   * final, whatever it is. Only "y" goes on.
   */
  function Ask(answers: seq<string>): (q: Asked)
    ensures q.used <= |answers| && q.used <= 2
    ensures q.reply != Ended ==> 1 <= q.used
  {
    if |answers| == 0 then Asked(Ended, 0, [AskMore, InputEnded])
    else if IsYes(answers[0]) then Asked(Continue, 1, [AskMore])
    else if IsNo(answers[0]) then Asked(Stop, 1, [AskMore])
    else if |answers| == 1 then Asked(Ended, 1, [AskMore, MustAnswer, AskMore, InputEnded])
    else Asked(if IsYes(answers[1]) then Continue else Stop, 2, [AskMore, MustAnswer, AskMore])
  }

  /** The answer "y", compared character by character. */
  predicate IsYes(answer: string) { |answer| == 1 && answer[0] == 'y' }

  /** The answer "n", compared character by character. */
  predicate IsNo(answer: string) { |answer| == 1 && answer[0] == 'n' }

  /** The character comparisons are the string comparisons of the source. */
  lemma YesNo(answer: string)
    ensures IsYes(answer) <==> answer == "y"
    ensures IsNo(answer) <==> answer == "n"
  {
    if IsYes(answer) {
      assert answer == [answer[0]];
    }
    if IsNo(answer) {
      assert answer == [answer[0]];
    }
  }

  /** A question shows no record. */
  lemma AskShowsNothing(answers: seq<string>)
    ensures ShownIndices(Ask(answers).said) == []
  {
  }

  /**
   * Only "y" goes on, straight away or after one re-ask; the question is
   * asked again only after an answer other than "y" and "n"; and the
   * dialogue ends for want of input only when no final answer was read.
   */
  lemma AskReplies(answers: seq<string>)
    ensures var q := Ask(answers);
      (q.reply == Continue <==>
        (|answers| >= 1 && answers[0] == "y") ||
        (|answers| >= 2 && answers[0] != "y" && answers[0] != "n" && answers[1] == "y")) &&
      (q.reply == Ended <==>
        |answers| == 0 || (|answers| == 1 && answers[0] != "y" && answers[0] != "n")) &&
      |q.said| >= 1 && q.said[0] == AskMore &&
      (MustAnswer in q.said <==> |answers| >= 1 && answers[0] != "y" && answers[0] != "n")
  {
    if |answers| >= 1 {
      YesNo(answers[0]);
    }
    if |answers| >= 2 {
      YesNo(answers[1]);
    }
  }

  /**
   * Reference definition of the dialogue after `shown` records (a whole
   * number of pages) of the n have been shown: ask, and on "y" show the next
   * page, or the remainder and "no more" when fewer than five are left.
   */
  function Dialogue(n: nat, shown: nat, answers: seq<string>): seq<Event>
    requires 5 <= shown <= n
    decreases |answers|
  {
    var q := Ask(answers);
    q.said +
      if q.reply != Continue then []
      else if n < shown + 5 then Shows(shown, n) + [NoMore]
      else Shows(shown, shown + 5) + Dialogue(n, shown + 5, answers[q.used..])
  }

  /** Reference definition of everything the pager writes for n records. */
  function Session(n: nat, answers: seq<string>): seq<Event>
  {
    if n == 0 then [NoMatch]
    else if n < 5 then Shows(0, n) + [NoMore]
    else Shows(0, 5) + Dialogue(n, 5, answers)
  }

  /** The number of questions, in a row, that the answers reply to with "go on". */
  function Continues(answers: seq<string>): nat
    decreases |answers|
  {
    var q := Ask(answers);
    if q.reply == Continue then 1 + Continues(answers[q.used..]) else 0
  }

  /** What remains to be written when the loops of `PageOn` are at counter and page. */
  function Pending(n: nat, counter: nat, page: nat, answers: seq<string>): seq<Event>
    requires 1 <= page && counter <= n && counter <= 5 * page
  {
    if n < 5 * page then Shows(counter, n) + [NoMore]
    else Shows(counter, 5 * page) + Dialogue(n, 5 * page, answers)
  }

  /**
   * The pager of main.py:142-194: "no match" for no record, every record
   * and "no more" for fewer than five, otherwise the first page and then
   * the paging loop.
   */
  method Recommend(recs: seq<Record>, answers: seq<string>) returns (out: seq<Event>)
    ensures out == Session(|recs|, answers)
    ensures ShownIndices(out) == Range(0, Min(5 * (Continues(answers) + 1), |recs|))
    ensures |recs| == 0 ==> out == [NoMatch]
    ensures 0 < |recs| < 5 ==> out == Shows(0, |recs|) + [NoMore] && AskMore !in out
  {
    SessionShown(|recs|, answers);
    var n := |recs|;
    if n == 0 {
      out := [NoMatch];
      return;
    }
    out := [];
    if n < 5 {
      for i := 0 to n
        invariant |out| == i
        invariant forall k :: 0 <= k < i ==> out[k] == Show(k)
      {
        out := out + [Show(i)];
      }
      ShowsAt(0, n);
      assert out == Shows(0, n);
      out := out + [NoMore];
      return;
    }
    for i := 0 to 5
      invariant |out| == i
      invariant forall k :: 0 <= k < i ==> out[k] == Show(k)
    {
      out := out + [Show(i)];
    }
    ShowsAt(0, 5);
    assert out == Shows(0, 5);
    var more := PageOn(n, answers);
    out := out + more;
  }

  /**
   * The loop of main.py:166-193, after the first page of n >= 5 records.
   * `counter` is the number of records shown, `page` the page number (`a`
   * in the source) and `answer` the flag (`bool` in the source); the loops
   * keep counter <= n and counter <= 5 * page, and counter never decreases.
   * The loop ends because a page is started only while 5 * (page - 1) <= n:
   * once `counter` reaches n the inner loop writes "no more" and clears the
   * flag, whatever the answers are.
   */
  method PageOn(n: nat, answers: seq<string>) returns (out: seq<Event>)
    requires 5 <= n
    ensures out == Dialogue(n, 5, answers)
  {
    out := [];
    assert answers[0..] == answers;
    var answer := "y";
    var page: nat := 1;
    var counter: nat := 5;
    var next: nat := 0;
    while answer == "y"
      invariant next <= |answers| && 1 <= page
      invariant 5 <= counter <= n && counter <= 5 * page
      invariant answer == "y" ==> out + Pending(n, counter, page, answers[next..]) == Dialogue(n, 5, answers)
      invariant answer != "y" ==> out == Dialogue(n, 5, answers)
      invariant answer == "y" ==> 5 * (page - 1) <= n
      decreases if answer == "y" then n + 10 - 5 * page else 0
    {
      var written, goOn;
      ghost var rest := answers[next..];
      written, counter, goOn := ShowPage(n, counter, page);
      if goOn {
        Associative(out, written, Dialogue(n, counter, rest));
      } else {
        Associative(out, written, []);
        answer := "n";
      }
      out := out + written;
      page := page + 1;
      if answer == "y" {
        ghost var before, from := out, next;
        var said, ended;
        answer, next, said, ended := AskToContinue(answers, next);
        AskKeeps(n, page, answers, from, next, answer, said, ended, before, Dialogue(n, 5, answers));
        out := out + said;
        if ended {
          return;
        }
      }
    }
  }

  /**
   * The inner loop of main.py:176-185: show records from `counter` up to
   * the end of page `page`, or up to the last record and then "no more".
   * `goOn` is false when "no more" was written (the source sets the flag
   * to "n" there).
   */
  method ShowPage(n: nat, counter: nat, page: nat) returns (written: seq<Event>, reached: nat, goOn: bool)
    requires counter <= n && counter <= 5 * page
    ensures counter <= reached <= n
    ensures goOn <==> 5 * page <= n
    ensures goOn ==> reached == 5 * page && written == Shows(counter, reached)
    ensures !goOn ==> reached == n && written == Shows(counter, n) + [NoMore]
  {
    written := [];
    reached := counter;
    goOn := true;
    while reached < 5 * page
      invariant counter <= reached <= n && reached <= 5 * page
      invariant written == Shows(counter, reached)
      decreases 5 * page - reached
    {
      if reached > n - 1 {
        written := written + [NoMore];
        goOn := false;
        return;
      }
      ShowsSnoc(counter, reached);
      written := written + [Show(reached)];
      reached := reached + 1;
    }
  }

  /** The question after page - 1 full pages keeps the invariant of the loop in `PageOn`. */
  lemma AskKeeps(n: nat, page: nat, answers: seq<string>, from: nat, after: nat, answer: string,
                 said: seq<Event>, ended: bool, before: seq<Event>, whole: seq<Event>)
    requires 2 <= page && 5 * (page - 1) <= n && from <= after <= |answers|
    requires before + Dialogue(n, 5 * (page - 1), answers[from..]) == whole
    requires Ask(answers[from..]) ==
      Asked(if ended then Ended else if answer == "y" then Continue else Stop, after - from, said)
    ensures !ended && answer == "y" ==> (before + said) + Pending(n, 5 * (page - 1), page, answers[after..]) == whole
    ensures ended || answer != "y" ==> before + said == whole
  {
    var rest := answers[from..];
    var q := Ask(rest);
    DialogueStep(n, page, rest);
    var tail := if q.reply == Continue then Pending(n, 5 * (page - 1), page, rest[q.used..]) else [];
    assert whole == before + (said + tail);
    if !ended && answer == "y" {
      assert q.reply == Continue && q.used == after - from;
      assert rest[q.used..] == answers[after..];
    } else {
      assert tail == [];
    }
  }

  /**
   * The question and its one re-ask (main.py:189-193), reading answers from
   * position `next`; `ended` when input ran out before a final answer.
   */
  method AskToContinue(answers: seq<string>, next: nat) returns (answer: string, after: nat, said: seq<Event>, ended: bool)
    requires next <= |answers|
    ensures next <= after <= |answers|
    ensures Ask(answers[next..]) ==
      Asked(if ended then Ended else if answer == "y" then Continue else Stop, after - next, said)
  {
    ghost var rest := answers[next..];
    said := [AskMore];
    after := next;
    ended := false;
    answer := "";
    if after == |answers| {
      said := said + [InputEnded];
      ended := true;
      return;
    }
    answer := answers[after];
    YesNo(answer);
    after := after + 1;
    if answer != "y" && answer != "n" {
      said := said + [MustAnswer, AskMore];
      if after == |answers| {
        said := said + [InputEnded];
        ended := true;
        return;
      }
      answer := answers[after];
      YesNo(answer);
      after := after + 1;
    }
  }

  /**
   * Concatenation is associative. Dafny knows this unaided; the lemma is
   * called where the sequences are large terms, to keep those proofs cheap.
   */
  lemma Associative<T>(a: seq<T>, b: seq<T>, c: seq<T>)
    ensures (a + b) + c == a + (b + c)
  {
  }

  /** The question after page - 1 full pages: what it writes, then the next page if it goes on. */
  lemma DialogueStep(n: nat, page: nat, rest: seq<string>)
    requires 2 <= page && 5 * (page - 1) <= n
    ensures var q := Ask(rest);
      Dialogue(n, 5 * (page - 1), rest) ==
        q.said + if q.reply == Continue then Pending(n, 5 * (page - 1), page, rest[q.used..]) else []
  {
    var shown := 5 * (page - 1);
    assert shown + 5 == 5 * page;
  }

  /** The shown indices of a concatenation are those of its parts, in order. */
  lemma {:induction false} ShownIndicesAppend(a: seq<Event>, b: seq<Event>)
    ensures ShownIndices(a + b) == ShownIndices(a) + ShownIndices(b)
    decreases |a|
  {
    if |a| == 0 {
      assert a + b == b;
      assert [] + ShownIndices(b) == ShownIndices(b);
    } else {
      var c := a + b;
      var head := if a[0].Show? then [a[0].index] else [];
      assert c[0] == a[0] && c[1..] == a[1..] + b;
      assert ShownIndices(c) == head + ShownIndices(a[1..] + b);
      assert ShownIndices(a) == head + ShownIndices(a[1..]);
      ShownIndicesAppend(a[1..], b);
      Associative(head, ShownIndices(a[1..]), ShownIndices(b));
    }
  }

  /** Showing records lo..hi-1 shows exactly the indices lo..hi-1. */
  lemma {:induction false} ShownIndicesShows(lo: nat, hi: nat)
    requires lo <= hi
    ensures ShownIndices(Shows(lo, hi)) == Range(lo, hi)
    decreases hi - lo
  {
    if lo < hi {
      ShownIndicesAppend([Show(lo)], Shows(lo + 1, hi));
      ShownIndicesShows(lo + 1, hi);
    }
  }

  /** The k-th event of `Shows(lo, hi)` shows record lo + k. */
  lemma {:induction false} ShowsAt(lo: nat, hi: nat)
    requires lo <= hi
    ensures forall k :: 0 <= k < hi - lo ==> Shows(lo, hi)[k] == Show(lo + k)
    decreases hi - lo
  {
    if lo < hi {
      ShowsAt(lo + 1, hi);
    }
  }

  /** Showing one more record extends the shows at the end. */
  lemma {:induction false} ShowsSnoc(lo: nat, hi: nat)
    requires lo <= hi
    ensures Shows(lo, hi + 1) == Shows(lo, hi) + [Show(hi)]
    decreases hi - lo
  {
    if lo < hi {
      ShowsSnoc(lo + 1, hi);
      Associative([Show(lo)], Shows(lo + 1, hi), [Show(hi)]);
    }
  }

  /** The k-th index of `Range(lo, hi)` is lo + k. */
  lemma {:induction false} RangeAt(lo: nat, hi: nat)
    requires lo <= hi
    ensures forall k :: 0 <= k < hi - lo ==> Range(lo, hi)[k] == lo + k
    decreases hi - lo
  {
    if lo < hi {
      RangeAt(lo + 1, hi);
    }
  }

  /** Range(0, m) lists 0, 1, ..., m - 1: every index below m, in order, once each. */
  lemma RangePrefix(m: nat)
    ensures var r := Range(0, m);
      |r| == m &&
      (forall i :: 0 <= i < |r| ==> r[i] == i) &&
      (forall i, j :: 0 <= i < j < |r| ==> r[i] != r[j])
  {
    RangeAt(0, m);
  }

  /** Adjacent ranges join. */
  lemma RangeAppend(lo: nat, mid: nat, hi: nat)
    requires lo <= mid <= hi
    ensures Range(lo, mid) + Range(mid, hi) == Range(lo, hi)
  {
    RangeAt(lo, mid);
    RangeAt(mid, hi);
    RangeAt(lo, hi);
  }

  /** What a question and the page after it contribute to the shown indices. */
  lemma ShownAfterAsk(said: seq<Event>, lo: nat, hi: nat, tail: seq<Event>, m: nat)
    requires ShownIndices(said) == [] && lo <= hi <= m
    requires ShownIndices(tail) == Range(hi, m)
    ensures ShownIndices(said + (Shows(lo, hi) + tail)) == Range(lo, m)
  {
    ShownIndicesAppend(said, Shows(lo, hi) + tail);
    ShownIndicesAppend(Shows(lo, hi), tail);
    ShownIndicesShows(lo, hi);
    RangeAppend(lo, hi, m);
  }

  /** A reply other than "go on" shows nothing more. */
  lemma DialogueShownStop(n: nat, shown: nat, answers: seq<string>)
    requires 5 <= shown <= n && Ask(answers).reply != Continue
    ensures ShownIndices(Dialogue(n, shown, answers)) == []
  {
    var q := Ask(answers);
    assert Dialogue(n, shown, answers) == q.said + [];
    assert q.said + [] == q.said;
    AskShowsNothing(answers);
  }

  /** "Go on" with fewer than five records left shows the rest. */
  lemma DialogueShownLast(n: nat, shown: nat, answers: seq<string>)
    requires 5 <= shown <= n < shown + 5 && Ask(answers).reply == Continue
    ensures ShownIndices(Dialogue(n, shown, answers)) == Range(shown, n)
  {
    var q := Ask(answers);
    assert Dialogue(n, shown, answers) == q.said + (Shows(shown, n) + [NoMore]);
    assert ShownIndices([NoMore]) == [];
    AskShowsNothing(answers);
    ShownAfterAsk(q.said, shown, n, [NoMore], n);
  }

  /** "Go on" with five or more records left shows the next page, then what the later dialogue shows. */
  lemma DialogueShownMore(n: nat, shown: nat, answers: seq<string>)
    requires 5 <= shown && shown + 5 <= n && Ask(answers).reply == Continue
    requires var later := answers[Ask(answers).used..];
      ShownIndices(Dialogue(n, shown + 5, later)) == Range(shown + 5, Min(shown + 5 + 5 * Continues(later), n))
    ensures ShownIndices(Dialogue(n, shown, answers)) == Range(shown, Min(shown + 5 * Continues(answers), n))
  {
    var q := Ask(answers);
    var later := answers[q.used..];
    var inner := Dialogue(n, shown + 5, later);
    var m := Min(shown + 5 + 5 * Continues(later), n);
    ContinuesStep(answers);
    DialoguePage(n, shown, answers);
    AskShowsNothing(answers);
    ShownAfterAsk(q.said, shown, shown + 5, inner, m);
  }

  /** A question answered "go on" counts once more than the answers after it. */
  lemma ContinuesStep(answers: seq<string>)
    requires Ask(answers).reply == Continue
    ensures Continues(answers) == 1 + Continues(answers[Ask(answers).used..])
  {
  }

  /** A "go on" with a full page left writes the question, the page and the next dialogue. */
  lemma DialoguePage(n: nat, shown: nat, answers: seq<string>)
    requires 5 <= shown && shown + 5 <= n && Ask(answers).reply == Continue
    ensures var q := Ask(answers);
      Dialogue(n, shown, answers) == q.said + (Shows(shown, shown + 5) + Dialogue(n, shown + 5, answers[q.used..]))
  {
  }

  /** After `shown` records, each "go on" shows the next five, up to n. */
  lemma {:induction false} DialogueShown(n: nat, shown: nat, answers: seq<string>)
    requires 5 <= shown <= n
    ensures ShownIndices(Dialogue(n, shown, answers)) == Range(shown, Min(shown + 5 * Continues(answers), n))
    decreases |answers|
  {
    var q := Ask(answers);
    if q.reply != Continue {
      DialogueShownStop(n, shown, answers);
    } else if n < shown + 5 {
      DialogueShownLast(n, shown, answers);
    } else {
      DialogueShown(n, shown + 5, answers[q.used..]);
      DialogueShownMore(n, shown, answers);
    }
  }

  /**
   * After the first page and c answers that go on, the records shown are
   * recs[0 .. min(5 * (c + 1), |recs|)], in order (see `RangePrefix`).
   */
  lemma SessionShown(n: nat, answers: seq<string>)
    ensures ShownIndices(Session(n, answers)) == Range(0, Min(5 * (Continues(answers) + 1), n))
  {
    var m := Min(5 * (Continues(answers) + 1), n);
    if n == 0 {
      assert ShownIndices([NoMatch]) == [];
    } else if n < 5 {
      SessionFew(n, answers);
    } else {
      var c := Continues(answers);
      assert m == Min(5 + 5 * c, n);
      DialogueShown(n, 5, answers);
      SessionMore(n, answers, m);
    }
  }

  /** Fewer than five records are all shown, whatever the answers. */
  lemma SessionFew(n: nat, answers: seq<string>)
    requires 0 < n < 5
    ensures ShownIndices(Session(n, answers)) == Range(0, n)
  {
    ShownIndicesAppend(Shows(0, n), [NoMore]);
    ShownIndicesShows(0, n);
    assert ShownIndices([NoMore]) == [];
    assert Range(0, n) + [] == Range(0, n);
  }

  /** Five or more records: the first page, then what the dialogue shows. */
  lemma SessionMore(n: nat, answers: seq<string>, m: nat)
    requires 5 <= m <= n
    requires ShownIndices(Dialogue(n, 5, answers)) == Range(5, m)
    ensures ShownIndices(Session(n, answers)) == Range(0, m)
  {
    ShownIndicesAppend(Shows(0, 5), Dialogue(n, 5, answers));
    ShownIndicesShows(0, 5);
    RangeAppend(0, 5, m);
  }

  /** Each leading "y" is one more question that goes on. */
  lemma {:induction false} ContinuesYs(k: nat, rest: seq<string>)
    ensures Continues(Ys(k) + rest) == k + Continues(rest)
  {
    if k > 0 {
      assert (Ys(k) + rest)[1..] == Ys(k - 1) + rest;
      ContinuesYs(k - 1, rest);
    } else {
      assert Ys(k) + rest == rest;
    }
  }

  /** No event of `Shows(lo, hi)` is "no more". */
  lemma ShowsNoNoMore(lo: nat, hi: nat)
    requires lo <= hi
    ensures NoMore !in Shows(lo, hi)
  {
    ShowsAt(lo, hi);
  }

  /**
   * The dialogue after `shown` records writes "no more" exactly when the
   * answers go on more often than there are full pages left: the paging
   * ends on its own once `counter` reaches the number of records, whatever
   * the user typed before each "go on" (main.py:176-181).
   */
  lemma {:induction false} DialogueNoMore(n: nat, shown: nat, answers: seq<string>)
    requires 5 <= shown <= n
    ensures NoMore in Dialogue(n, shown, answers) <==> Continues(answers) > (n - shown) / 5
    decreases |answers|
  {
    var q := Ask(answers);
    assert NoMore !in q.said;
    if q.reply != Continue {
      assert Dialogue(n, shown, answers) == q.said;
    } else if n < shown + 5 {
      assert Dialogue(n, shown, answers) == q.said + (Shows(shown, n) + [NoMore]);
    } else {
      var rest := answers[q.used..];
      DialogueNoMore(n, shown + 5, rest);
      ShowsNoNoMore(shown, shown + 5);
      assert Dialogue(n, shown, answers) == q.said + (Shows(shown, shown + 5) + Dialogue(n, shown + 5, rest));
      assert (n - shown) / 5 == 1 + (n - (shown + 5)) / 5;
    }
  }

  /**
   * The whole session writes "no more" exactly when there is a record and
   * the answers go on at least n / 5 times; with n a multiple of 5 that
   * includes the question after the last full page.
   */
  lemma SessionNoMore(n: nat, answers: seq<string>)
    ensures NoMore in Session(n, answers) <==> 0 < n && Continues(answers) >= n / 5
  {
    if 0 < n < 5 {
      assert NoMore in Shows(0, n) + [NoMore];
    } else if 5 <= n {
      ShowsNoNoMore(0, 5);
      DialogueNoMore(n, 5, answers);
    }
  }

  /** A question answered "go on" ends with the prompt it was answered to. */
  lemma AskContinueSaid(answers: seq<string>)
    requires Ask(answers).reply == Continue
    ensures var s := Ask(answers).said; |s| >= 1 && s[|s| - 1] == AskMore
  {
  }

  /** A "go on" that reaches the end of the list: what is written last. */
  lemma DialogueEndsNow(n: nat, shown: nat, answers: seq<string>)
    requires 5 <= shown <= n < shown + 5 && Ask(answers).reply == Continue
    ensures var d := Dialogue(n, shown, answers);
      |d| >= 2 && d[|d| - 1] == NoMore && d[|d| - 2] == if n == shown then AskMore else Show(n - 1)
  {
    var s := Ask(answers).said;
    AskContinueSaid(answers);
    assert Dialogue(n, shown, answers) == s + (Shows(shown, n) + [NoMore]);
    if n == shown {
      assert Shows(n, n) == [];
    } else {
      ShowsAt(shown, n);
    }
  }

  /** A "go on" with a full page left: the dialogue ends as the one after that page. */
  lemma DialogueEndsLater(n: nat, shown: nat, answers: seq<string>)
    requires 5 <= shown && shown + 5 <= n && Ask(answers).reply == Continue
    ensures var d, e := Dialogue(n, shown, answers), Dialogue(n, shown + 5, answers[Ask(answers).used..]);
      |d| >= |e| && (|e| >= 2 ==> d[|d| - 1] == e[|e| - 1] && d[|d| - 2] == e[|e| - 2])
  {
    DialoguePage(n, shown, answers);
  }

  /**
   * How the dialogue after `shown` records ends when the answers go on at
   * least k times, the k-th "go on" being the one that reaches the end of
   * the list. A re-asked question may come before any of them.
   */
  lemma {:induction false} DialogueToEnd(n: nat, shown: nat, k: nat, answers: seq<string>)
    requires 5 <= shown <= n && 1 <= k
    requires shown + 5 * (k - 1) <= n < shown + 5 * k
    requires Continues(answers) >= k
    ensures var d := Dialogue(n, shown, answers);
      |d| >= 2 && d[|d| - 1] == NoMore &&
      d[|d| - 2] == if n == shown + 5 * (k - 1) then AskMore else Show(n - 1)
    decreases k
  {
    var q := Ask(answers);
    assert q.reply == Continue;
    if k == 1 {
      DialogueEndsNow(n, shown, answers);
    } else {
      ContinuesStep(answers);
      DialogueToEnd(n, shown + 5, k - 1, answers[q.used..]);
      DialogueEndsLater(n, shown, answers);
    }
  }

  /**
   * A user whose answers go on at least n / 5 times, for instance n / 5
   * answers "y" (`ContinuesYs`), sees all n >= 5 records and then "no
   * more". When n is a multiple of 5 the question is still asked after the
   * last full page, and that last "go on" shows nothing before "no more"
   * (main.py:176-189); otherwise "no more" follows the last record directly.
   */
  lemma ExhaustiveSession(n: nat, answers: seq<string>)
    requires 5 <= n && Continues(answers) >= n / 5
    ensures var s := Session(n, answers);
      ShownIndices(s) == Range(0, n) && |s| >= 2 && s[|s| - 1] == NoMore &&
      (s[|s| - 2] == AskMore <==> n % 5 == 0) &&
      (n % 5 != 0 ==> s[|s| - 2] == Show(n - 1))
  {
    var k := n / 5;
    assert 5 + 5 * (k - 1) <= n < 5 + 5 * k;
    assert n == 5 + 5 * (k - 1) <==> n % 5 == 0;
    assert Min(5 * (Continues(answers) + 1), n) == n;
    SessionShown(n, answers);
    DialogueToEnd(n, 5, k, answers);
  }
}
