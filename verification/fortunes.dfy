/**
 * The `Fortune` record and how a settled fetch becomes one. The AJAX call
 * itself is not modelled: its result is an input outcome.
 */
module Fortunes {
  import Text

  /** The message stored when the fetch fails. */
  const FallbackFortune: string := "All great changes are preceded by chaos"

  datatype Fortune = Fortune(message: string)

  /** How the request settled: the response's `fortune` fragments, or failure. */
  datatype FetchOutcome = Success(fragments: seq<string>) | Failure

  /**
   * The fortune a settled fetch produces: on success the fragments joined
   * with single spaces, on failure the fallback message.
   */
  function FortuneFor(outcome: FetchOutcome): (f: Fortune)
    ensures outcome.Failure? ==> f.message == FallbackFortune
    ensures outcome.Success? && |outcome.fragments| == 1 ==> f.message == outcome.fragments[0]
    ensures outcome.Success? && |outcome.fragments| == 0 ==> f.message == ""
  {
    match outcome
    case Success(fragments) => Fortune(Text.Join(fragments, ' '))
    case Failure => Fortune(FallbackFortune)
  }

  /**
   * A successful message keeps every fragment: when no fragment holds a
   * space, splitting the message at spaces gives the fragments back.
   */
  lemma SuccessMessageSplitsBack(fragments: seq<string>)
    requires |fragments| >= 1 && Text.FreeOf(fragments, ' ')
    ensures Text.Split(FortuneFor(Success(fragments)).message, ' ') == fragments
  {
    Text.SplitJoin(fragments, ' ');
  }

  /** Two fragments are separated by exactly one space. */
  lemma SuccessTwoFragments(a: string, b: string)
    ensures FortuneFor(Success([a, b])).message == a + " " + b
  {
    assert [a, b][1..] == [b];
  }

  /** The response `["Stay", "curious"]` gives the message "Stay curious". */
  lemma StayCurious()
    ensures FortuneFor(Success(["Stay", "curious"])).message == "Stay curious"
  {
    SuccessTwoFragments("Stay", "curious");
  }
}
