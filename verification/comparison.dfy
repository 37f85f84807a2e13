/** Whether two responses look like the same site (`_compare_responses`):
    same status code and same content signature. */
module Comparison {
  import opened Http

  /** The outcome of a comparison; the source reports the two kinds of
      difference separately and returns only whether they are equal. */
  datatype Verdict = Same | DifferentStatus | DifferentContent

  function Compare(r1: Response, content1: string, r2: Response, content2: string): (v: Verdict)
    ensures v == Same <==> r1.status == r2.status && content1 == content2
    ensures v == DifferentStatus <==> r1.status != r2.status
    ensures v == DifferentContent <==> r1.status == r2.status && content1 != content2
  {
    if r1.status == r2.status && content1 == content2 then Same
    else if r1.status != r2.status then DifferentStatus
    else DifferentContent
  }

  /** The boolean the source returns. */
  predicate Matches(v: Verdict) {
    v == Same
  }

  /** Comparison does not depend on the order of its arguments. */
  lemma CompareSymmetric(r1: Response, content1: string, r2: Response, content2: string)
    ensures Compare(r1, content1, r2, content2) == Compare(r2, content2, r1, content1)
  {
  }

  /** A response always matches itself. */
  lemma CompareReflexive(r: Response, content: string)
    ensures Matches(Compare(r, content, r, content))
  {
  }

  /** Different status codes never match, whatever the contents. */
  lemma StatusDecidesFirst(r1: Response, content1: string, r2: Response, content2: string)
    requires r1.status != r2.status
    ensures Compare(r1, content1, r2, content2) == DifferentStatus
  {
  }
}
