/** Splitting a long Slack message into the messages of a channel's queue. */
module SlackSplit {
  /** The longest text that Slack takes in one message. */
  const LIMIT: nat := 39999

  /** A scheduled message; only the last part carries the attachments. */
  datatype Message = Message(text: string, attached: bool)

  /** No line break at any of the positions. */
  predicate NoBreak(text: string, from: nat, to: nat) {
    forall q :: from <= q < to && q < |text| ==> text[q] != '\n'
  }

  /** The last line break before an end, or the end: rsplit('\n', 1)[0]. */
  function LastBreak(text: string, end: nat): (n: nat)
    requires end <= |text|
    ensures n <= end && NoBreak(text, n + 1, end)
    ensures n < end ==> text[n] == '\n'
    ensures n == end ==> NoBreak(text, 0, end)
  {
    LastBreakFrom(text, end, end)
  }

  function LastBreakFrom(text: string, i: nat, end: nat): (n: nat)
    requires i <= end <= |text| && NoBreak(text, i, end)
    ensures n <= end && NoBreak(text, n + 1, end)
    ensures n < end ==> text[n] == '\n'
    ensures n == end ==> NoBreak(text, 0, end)
    decreases i
  {
    if i == 0 then end else if text[i - 1] == '\n' then i - 1 else LastBreakFrom(text, i - 1, end)
  }

  /** The length of the part that one turn of the loop takes off. */
  function Part(text: string): (n: nat)
    requires |text| > LIMIT
    ensures n <= LIMIT
  {
    LastBreak(text, LIMIT)
  }

  /** What a number of turns leaves of the text. */
  function Left(text: string, turns: nat): string
    decreases turns
  {
    if turns == 0 || |text| <= LIMIT then text else Left(text[Part(text)..], turns - 1)
  }

  /** The loop ends. */
  ghost predicate Ends(text: string) {
    exists turns: nat :: |Left(text, turns)| <= LIMIT
  }

  /** A line break at p is followed by a line too long to be taken with it. */
  predicate HangsAt(text: string, p: nat) {
    p < |text| && text[p] == '\n' && |text| - p > 39999 && NoBreak(text, p + 1, p + 39999)
  }

  ghost predicate Hangs(text: string) {
    exists p: nat :: HangsAt(text, p)
  }

  lemma HangingShifts(text: string, n: nat, p: nat)
    requires n <= |text|
    ensures HangsAt(text[n..], p) <==> HangsAt(text, n + p)
  {
    var rest := text[n..];
    assert forall q :: 0 <= q < |rest| ==> rest[q] == text[n + q];
    assert forall q :: n <= q < |text| ==> text[q] == rest[q - n];
  }

  /** A text that does not hang loses a part, and the rest does not hang. */
  lemma PartIsTaken(text: string)
    requires |text| > LIMIT && !Hangs(text)
    ensures Part(text) > 0 && !Hangs(text[Part(text)..])
  {
    assert !HangsAt(text, 0);
    forall p: nat ensures !HangsAt(text[Part(text)..], p) {
      HangingShifts(text, Part(text), p);
    }
  }

  /** A text that hangs keeps hanging, whatever was taken off before. */
  lemma HangingStays(text: string)
    requires Hangs(text)
    ensures |text| > LIMIT && Hangs(text[Part(text)..])
  {
    var p: nat :| HangsAt(text, p);
    var n := Part(text);
    assert n > p ==> n == LIMIT;
    HangingShifts(text, n, p - n);
  }

  lemma OneTurn(text: string, turns: nat)
    requires |text| > LIMIT && turns > 0
    ensures Left(text, turns) == Left(text[Part(text)..], turns - 1)
  {
  }

  lemma {:induction false} HangingNeverEnds(text: string, turns: nat)
    requires Hangs(text)
    ensures |Left(text, turns)| > LIMIT
    decreases turns
  {
    var rest := HangingRest(text);
    if turns > 0 {
      HangingNeverEnds(rest, turns - 1);
      OneTurn(text, turns);
    }
  }

  lemma HangingRest(text: string) returns (rest: string)
    requires Hangs(text)
    ensures |text| > LIMIT && rest == text[Part(text)..] && Hangs(rest)
  {
    HangingStays(text);
    rest := text[Part(text)..];
  }

  lemma {:induction false} EndsUnlessHanging(text: string) returns (turns: nat)
    requires !Hangs(text)
    ensures |Left(text, turns)| <= LIMIT
    decreases |text|
  {
    if |text| <= LIMIT {
      turns := 0;
    } else {
      PartIsTaken(text);
      turns := EndsUnlessHanging(text[Part(text)..]);
      turns := turns + 1;
    }
  }

  /** The loop ends exactly for the texts without a hanging line break. */
  lemma EndsIff(text: string)
    ensures Ends(text) <==> !Hangs(text)
  {
    if Hangs(text) {
      forall turns: nat ensures |Left(text, turns)| > LIMIT {
        HangingNeverEnds(text, turns);
      }
    } else {
      var turns := EndsUnlessHanging(text);
    }
  }

  /** Lines of at most 39997 characters after the first are enough. */
  lemma ShortLinesEnd(text: string)
    requires forall p: nat :: p < |text| && text[p] == '\n' ==>
      |text| <= p + 39998 || !NoBreak(text, p + 1, p + 39999)
    ensures Ends(text)
  {
    EndsIff(text);
  }

  function Joined(sent: seq<Message>): string {
    if sent == [] then "" else Joined(sent[..|sent| - 1]) + sent[|sent| - 1].text
  }

  /** A part ends before the last line break that it could reach, or is of full length. */
  predicate EndsWell(text: string, from: nat, to: nat) {
    && from < to <= |text| && to - from <= 39999
    && if to - from < 39999 then to < |text| && text[to] == '\n' && NoBreak(text, to + 1, from + 39999) else NoBreak(text, from, to)
  }

  /** Where the parts of a text begin and end. */
  predicate SplitsWell(text: string, sent: seq<Message>, cuts: seq<nat>) {
    && |cuts| == |sent| && |sent| > 0 && cuts[0] == 0
    && (forall i :: 0 <= i < |cuts| ==> cuts[i] <= |text|)
    && (forall i :: 0 <= i < |cuts| - 1 ==> EndsWell(text, cuts[i], cuts[i + 1]) && sent[i] == Message(text[cuts[i]..cuts[i + 1]], false))
    && |text| - cuts[|cuts| - 1] <= 39999
    && sent[|cuts| - 1] == Message(text[cuts[|cuts| - 1]..], true)
  }

  /** Some parts of the text were sent, up to a position. */
  predicate SplitSoFar(text: string, sent: seq<Message>, cuts: seq<nat>, at: nat) {
    && at <= |text| && |cuts| == |sent| + 1 && cuts[0] == 0 && cuts[|sent|] == at
    && (forall i :: 0 <= i < |cuts| ==> cuts[i] <= |text|)
    && (forall i :: 0 <= i < |sent| ==> EndsWell(text, cuts[i], cuts[i + 1]) && sent[i] == Message(text[cuts[i]..cuts[i + 1]], false))
    && Joined(sent) == text[..at]
  }

  lemma PartAppends(text: string, sent: seq<Message>, cuts: seq<nat>, at: nat, to: nat)
    requires SplitSoFar(text, sent, cuts, at) && EndsWell(text, at, to)
    ensures SplitSoFar(text, sent + [Message(text[at..to], false)], cuts + [to], to)
  {
    JoinedMore(sent, Message(text[at..to], false));
    assert text[..to] == text[..at] + text[at..to];
    var sent', cuts' := sent + [Message(text[at..to], false)], cuts + [to];
    forall i | 0 <= i < |sent'|
      ensures EndsWell(text, cuts'[i], cuts'[i + 1]) && sent'[i] == Message(text[cuts'[i]..cuts'[i + 1]], false)
    {
      assert cuts'[i] == cuts[i];
      assert i < |sent| ==> cuts'[i + 1] == cuts[i + 1] && sent'[i] == sent[i];
    }
  }

  lemma JoinedMore(sent: seq<Message>, message: Message)
    ensures Joined(sent + [message]) == Joined(sent) + message.text
  {
    assert (sent + [message])[..|sent|] == sent;
  }

  lemma CutsWell(text: string, at: nat)
    requires at <= |text| && |text[at..]| > LIMIT && Part(text[at..]) > 0
    ensures EndsWell(text, at, at + Part(text[at..]))
  {
    var rest := text[at..];
    forall q | at <= q < |text| ensures text[q] == rest[q - at] {}
  }

  lemma OnePartMore(text: string, sent: seq<Message>, cuts: seq<nat>, at: nat)
    requires SplitSoFar(text, sent, cuts, at) && |text[at..]| > LIMIT && Part(text[at..]) > 0
    ensures var n := Part(text[at..]);
      SplitSoFar(text, sent + [Message(text[at..][..n], false)], cuts + [at + n], at + n) && text[at..][n..] == text[at + n..]
  {
    var n := Part(text[at..]);
    assert text[at..][..n] == text[at..at + n];
    CutsWell(text, at);
    PartAppends(text, sent, cuts, at, at + n);
  }

  lemma LastPart(text: string, sent: seq<Message>, cuts: seq<nat>, at: nat)
    requires SplitSoFar(text, sent, cuts, at) && |text[at..]| <= LIMIT
    ensures var all := sent + [Message(text[at..], true)];
      SplitsWell(text, all, cuts) && Joined(all) == text && forall m :: m in all ==> |m.text| <= LIMIT
  {
    JoinedMore(sent, Message(text[at..], true));
    assert text == text[..at] + text[at..];
    forall m | m in sent ensures |m.text| <= LIMIT {
      var i: nat :| i < |sent| && sent[i] == m;
      assert EndsWell(text, cuts[i], cuts[i + 1]);
    }
  }

  /** The queue of one channel. */
  class Channel {
    var queue: seq<Message>

    method Schedule(text: string, attached: bool)
      modifies this
      ensures queue == old(queue) + [Message(text, attached)]
    {
      queue := queue + [Message(text, attached)];
    }

    /** One turn of the loop: a part goes to the queue, the rest remains. */
    method SendPart(rest: string, ghost text: string, ghost sent: seq<Message>, ghost cuts: seq<nat>, ghost at: nat)
      returns (left: string, ghost part: Message, ghost next: nat)
      requires |rest| > LIMIT && !Hangs(rest) && SplitSoFar(text, sent, cuts, at) && rest == text[at..]
      modifies this
      ensures queue == old(queue) + [part]
      ensures SplitSoFar(text, sent + [part], cuts + [next], next) && left == text[next..]
      ensures !Hangs(left) && |left| < |rest|
    {
      var firstPart := rest[..Part(rest)];
      PartIsTaken(rest);
      OnePartMore(text, sent, cuts, at);
      Schedule(firstPart, false);
      part, next := Message(firstPart, false), at + |firstPart|;
      left := rest[|firstPart|..];
    }

    /** send_message: the parts go to the end of the queue, none is longer than
        the limit, and together they are the text. */
    method SendMessage(text: string) returns (ghost sent: seq<Message>, ghost cuts: seq<nat>)
      requires !Hangs(text)
      modifies this
      ensures queue == old(queue) + sent
      ensures SplitsWell(text, sent, cuts) && Joined(sent) == text
      ensures forall m :: m in sent ==> |m.text| <= 39999
    {
      var rest := text;
      sent, cuts := [], [0];
      ghost var at: nat := 0;
      while |rest| > LIMIT
        invariant SplitSoFar(text, sent, cuts, at) && rest == text[at..] && !Hangs(rest)
        invariant queue == old(queue) + sent
        decreases |rest|
      {
        ghost var part;
        rest, part, at := SendPart(rest, text, sent, cuts, at);
        sent, cuts := sent + [part], cuts + [at];
      }
      LastPart(text, sent, cuts, at);
      Schedule(rest, true);
      sent := sent + [Message(rest, true)];
    }
  }
}
