/** The benign/attack decision app.py makes on the predicted label. */
module Verdicts {

  /** What the result banner reports for one analysed flow. */
  datatype Verdict = Secure(predicted: string) | Attack(predicted: string)

  /** The only labels app.py treats as normal traffic. */
  const BenignLabels: seq<string> := ["Normal", "Thing_Speak"]

  /** `prediction in ["Normal", "Thing_Speak"]` */
  predicate IsBenign(prediction: string) {
    prediction in BenignLabels
  }

  /** Secure exactly for the two benign labels (exact, case-sensitive string
      equality); everything else, unknown and empty labels included, is an attack.
      The verdict carries the label unchanged. */
  function Classify(prediction: string): (v: Verdict)
    ensures v.predicted == prediction
    ensures v.Secure? <==> prediction == "Normal" || prediction == "Thing_Speak"
  {
    if IsBenign(prediction) then Secure(prediction) else Attack(prediction)
  }

  /** Fail-closed: a label outside the benign set is always reported as an attack.
      A corollary of Classify's contract, stated for readers. */
  lemma AttackUnlessBenign(prediction: string)
    requires prediction != "Normal" && prediction != "Thing_Speak"
    ensures Classify(prediction) == Attack(prediction)
  {
  }

  /** Matching is case-sensitive and admits nothing but the two exact labels.
      Instances of Classify's contract, stated for readers. */
  lemma ClassifyExamples()
    ensures Classify("Normal") == Secure("Normal")
    ensures Classify("Thing_Speak") == Secure("Thing_Speak")
    ensures Classify("normal") == Attack("normal")
    ensures Classify("") == Attack("")
    ensures Classify("DoS") == Attack("DoS")
  {
  }
}
