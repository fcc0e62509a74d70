/** An operator's decision at a pause: what may be sent, and which one counts. */
module Steering {
  import opened Options
  import opened Text

  datatype Choice = Guide | Skip | Stop | Continue | Accept | Unoffered(name: string)

  datatype Decision = Decision(choice: Choice, guidance: string)

  datatype Round = LocalReview | RemoteComments | PassLimit

  const MAX_GUIDANCE_LENGTH := 8192

  /** Guiding needs text, within a bound in bytes; no other choice may carry any. */
  predicate Valid(decision: Decision) {
    match decision.choice
    case Guide => !Blank(decision.guidance) && Utf8Length(decision.guidance) <= MAX_GUIDANCE_LENGTH
    case Unoffered(_) => false
    case _ => Blank(decision.guidance)
  }

  /** Each pause has its own vocabulary. */
  predicate Accepts(round: Round, decision: Decision) {
    Valid(decision) && decision.choice in if round == PassLimit then {Continue, Accept, Stop} else {Guide, Skip, Stop}
  }

  /** What may be sent at a pause, said out: its own choices, with guidance exactly where it is called for. */
  lemma AcceptsExactly(round: Round, decision: Decision)
    ensures Accepts(round, decision) <==>
              && (match round
                  case PassLimit => decision.choice == Continue || decision.choice == Accept || decision.choice == Stop
                  case _ => decision.choice == Guide || decision.choice == Skip || decision.choice == Stop)
              && (Blank(decision.guidance) <==> decision.choice != Guide)
              && (decision.choice == Guide ==> Utf8Length(decision.guidance) <= 8192)
  {
  }

  /** The decision that counts among those sent: the first acceptable one. */
  ghost function Answer(round: Round, sent: seq<Decision>): Option<Decision> {
    if sent == [] then None else if Accepts(round, sent[0]) then Some(sent[0]) else Answer(round, sent[1..])
  }

  ghost function Chosen(round: Round, sent: seq<Decision>): Option<Choice> {
    match Answer(round, sent) case None => None case Some(decision) => Some(decision.choice)
  }

  ghost predicate IsFirstAccepted(round: Round, sent: seq<Decision>, i: nat) {
    i < |sent| && Accepts(round, sent[i]) && forall j | 0 <= j < i :: !Accepts(round, sent[j])
  }

  /** Refused decisions are passed over and later ones change nothing: a decision counts exactly when it is
      the first acceptable one, and none counts exactly when none is acceptable. */
  lemma {:induction false} AnswerIsFirst(round: Round, sent: seq<Decision>)
    ensures Answer(round, sent) == None <==> forall d | d in sent :: !Accepts(round, d)
    ensures forall i: nat | IsFirstAccepted(round, sent, i) :: Answer(round, sent) == Some(sent[i])
    ensures Answer(round, sent).Some? ==>
              exists i: nat :: IsFirstAccepted(round, sent, i) && Answer(round, sent) == Some(sent[i])
  {
    if sent != [] {
      if Accepts(round, sent[0]) {
        assert IsFirstAccepted(round, sent, 0);
      } else {
        var rest := sent[1..];
        AnswerIsFirst(round, rest);
        assert sent == [sent[0]] + rest;
        forall i: nat | IsFirstAccepted(round, sent, i) ensures Answer(round, sent) == Some(sent[i]) {
          if i > 0 { FirstInRest(round, sent, i); }
        }
        if i: nat :| IsFirstAccepted(round, rest, i) && Answer(round, rest) == Some(rest[i]) {
          FirstInRest(round, sent, i + 1);
        }
      }
    }
  }

  lemma FirstInRest(round: Round, sent: seq<Decision>, i: nat)
    requires sent != [] && !Accepts(round, sent[0]) && 0 < i
    ensures IsFirstAccepted(round, sent, i) <==> IsFirstAccepted(round, sent[1..], i - 1)
  {
    if i < |sent| {
      assert sent[1..][i - 1] == sent[i];
      assert forall j | 0 < j < i :: sent[1..][j - 1] == sent[j];
    }
  }

  /** Waits for a decision: refused ones are passed over; without one the session was cancelled. */
  method Ask(round: Round, sent: seq<Decision>) returns (decision: Option<Decision>)
    ensures decision == Answer(round, sent)
    ensures decision.Some? ==> Accepts(round, decision.value)
  {
    for i := 0 to |sent|
      invariant Answer(round, sent) == Answer(round, sent[i..])
    {
      assert sent[i..][1..] == sent[i + 1..];
      if Accepts(round, sent[i]) {
        return Some(sent[i]);
      }
    }
    return None;
  }
}
