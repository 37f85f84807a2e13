/** The content signature of a response (`_get_content`): the text of the first
    `<title>` element, else of the first `<head>` element, else the whole body.

    Each element is found with the pattern `<tag.*?>([\s\S]*?)</tag>`, searched
    case-insensitively. Its quirks are kept: the open tag is `<tag`, then any
    characters except a newline up to the first `>`, so `<head` also opens at
    `<header>`; the captured text stops at the first closing tag; an empty
    capture counts as "not found". */
module Markup {
  import opened Wrappers
  import opened Text

  datatype Tag = Title | Head

  function Name(t: Tag): string {
    match t
    case Title => "title"
    case Head => "head"
  }

  /** The literal start of an opening tag, e.g. `<title`. */
  function Open(t: Tag): string {
    "<" + Name(t)
  }

  /** The closing tag, e.g. `</title>`. */
  function Close(t: Tag): string {
    "</" + Name(t) + ">"
  }

  /** One match of the pattern: `start` is the `<` of the opening tag, `gt` the
      `>` that ends it and `close` the `<` of the closing tag; the captured text
      is the span `[gt + 1, close)`. */
  datatype Span = Span(start: nat, gt: nat, close: nat)

  /** The pattern matches the lower-cased text `lt` with the opening tag at `a`,
      its `>` at `p` and the closing tag at `q`. */
  ghost predicate IsMatch(lt: string, t: Tag, a: nat, p: nat, q: nat) {
    && OccursAt(lt, Open(t), a)
    && a + |Open(t)| <= p < q
    && OccursAt(lt, Close(t), q)
    && lt[p] == '>'
    && (forall j :: a + |Open(t)| <= j < p ==> lt[j] != '\n')
  }

  /** Lexicographic order on (start, gt, close): the order in which a
      backtracking matcher tries candidates for a leftmost match with two
      lazy quantifiers. */
  ghost predicate LexLe(a: nat, p: nat, q: nat, a': nat, p': nat, q': nat) {
    a < a' || (a == a' && (p < p' || (p == p' && q <= q')))
  }

  /** The match that a case-insensitive `re.search` reports in `text`. */
  ghost predicate IsFirstMatch(text: string, t: Tag, a: nat, p: nat, q: nat) {
    && IsMatch(Lower(text), t, a, p, q)
    && forall a': nat, p': nat, q': nat :: IsMatch(Lower(text), t, a', p', q') ==> LexLe(a, p, q, a', p', q')
  }

  /** First index at or after `k` holding `>` or a newline. */
  function NextStop(lt: string, k: nat): (r: Option<nat>)
    ensures r.Some? ==> k <= r.value < |lt| && (lt[r.value] == '>' || lt[r.value] == '\n')
    ensures r.Some? ==> forall j :: k <= j < r.value ==> lt[j] != '>' && lt[j] != '\n'
    ensures r.None? ==> forall j :: k <= j < |lt| ==> lt[j] != '>' && lt[j] != '\n'
    decreases |lt| - k
  {
    if |lt| <= k then None
    else if lt[k] == '>' || lt[k] == '\n' then Some(k)
    else NextStop(lt, k + 1)
  }

  /** The match whose opening tag starts at `a`, trying the shortest open tag
      and then the shortest capture, as the lazy quantifiers do. */
  function MatchAt(lt: string, t: Tag, a: nat): (r: Option<Span>)
    ensures r.Some? ==> r.value.start == a && IsMatch(lt, t, a, r.value.gt, r.value.close)
    ensures r.Some? ==> forall p: nat, q: nat :: IsMatch(lt, t, a, p, q) ==> LexLe(a, r.value.gt, r.value.close, a, p, q)
    ensures r.None? ==> forall p: nat, q: nat :: !IsMatch(lt, t, a, p, q)
  {
    if !OccursAt(lt, Open(t), a) then None
    else
      var k := a + |Open(t)|;
      match NextStop(lt, k)
      case None => None
      case Some(p) =>
        if lt[p] != '>' then
          // the newline at p ends every candidate open tag
          assert lt[p] == '\n';
          assert forall p': nat, q': nat :: IsMatch(lt, t, a, p', q') ==> p < p';
          None
        else
          match Find(lt, Close(t), p + 1)
          case None => None
          case Some(q) => Some(Span(a, p, q))
  }

  /** The leftmost match whose opening tag starts at or after `i`. */
  function SearchFrom(lt: string, t: Tag, i: nat): (r: Option<Span>)
    ensures r.Some? ==> i <= r.value.start && IsMatch(lt, t, r.value.start, r.value.gt, r.value.close)
    ensures r.Some? ==> forall a: nat, p: nat, q: nat :: i <= a && IsMatch(lt, t, a, p, q) ==>
                          LexLe(r.value.start, r.value.gt, r.value.close, a, p, q)
    ensures r.None? ==> forall a: nat, p: nat, q: nat :: i <= a ==> !IsMatch(lt, t, a, p, q)
    decreases |lt| - i
  {
    if |lt| < i + |Open(t)| then None
    else
      var m := MatchAt(lt, t, i);
      if m.Some? then m else SearchFrom(lt, t, i + 1)
  }

  /** `re.search(r'<tag.*?>([\s\S]*?)</tag>', text, re.IGNORECASE)`: the
      reported match, or `None` when the pattern does not occur. */
  function Search(text: string, t: Tag): (r: Option<Span>)
    ensures r.Some? ==> IsFirstMatch(text, t, r.value.start, r.value.gt, r.value.close)
    ensures r.None? <==> forall a: nat, p: nat, q: nat :: !IsMatch(Lower(text), t, a, p, q)
  {
    SearchFrom(Lower(text), t, 0)
  }

  /** The captured group of the reported match, or `None`. */
  function Capture(text: string, t: Tag): Option<string> {
    match Search(text, t)
    case None => None
    case Some(m) => Some(text[m.gt + 1..m.close])
  }

  /** The content signature of a response body. */
  function Signature(body: string): (r: string)
    ensures r == "" <==> body == ""
  {
    var title := Capture(body, Title);
    if title.Some? && title.value != "" then title.value
    else
      var head := Capture(body, Head);
      if head.Some? && head.value != "" then head.value
      else body
  }

  /** Two first matches are the same match. */
  lemma FirstMatchUnique(text: string, t: Tag, a: nat, p: nat, q: nat, a': nat, p': nat, q': nat)
    requires IsFirstMatch(text, t, a, p, q) && IsFirstMatch(text, t, a', p', q')
    ensures a == a' && p == p' && q == q'
  {
  }

  /** The reported match is the first match. */
  lemma SearchIsFirst(text: string, t: Tag, a: nat, p: nat, q: nat)
    requires IsFirstMatch(text, t, a, p, q)
    ensures Search(text, t) == Some(Span(a, p, q))
  {
    var r := Search(text, t);
    assert IsMatch(Lower(text), t, a, p, q);
    FirstMatchUnique(text, t, a, p, q, r.value.start, r.value.gt, r.value.close);
  }

  /** Neither a match nor a first match with a non-empty capture. */
  ghost predicate NoText(body: string, t: Tag) {
    forall a: nat, p: nat, q: nat :: IsFirstMatch(body, t, a, p, q) ==> q == p + 1
  }

  lemma NoTextCapture(body: string, t: Tag)
    requires NoText(body, t)
    ensures Capture(body, t).None? || Capture(body, t) == Some("")
  {
    var r := Search(body, t);
    if r.Some? {
      assert IsFirstMatch(body, t, r.value.start, r.value.gt, r.value.close);
      assert body[r.value.gt + 1..r.value.close] == "";
    }
  }

  /** A first `<title>` match with non-empty text decides the signature. */
  lemma SignatureTitleFirst(body: string, a: nat, p: nat, q: nat)
    requires IsFirstMatch(body, Title, a, p, q) && p + 1 < q
    ensures Signature(body) == body[p + 1..q]
  {
    SearchIsFirst(body, Title, a, p, q);
  }

  /** Without title text, a first `<head>` match with non-empty text decides it. */
  lemma SignatureHeadNext(body: string, a: nat, p: nat, q: nat)
    requires NoText(body, Title)
    requires IsFirstMatch(body, Head, a, p, q) && p + 1 < q
    ensures Signature(body) == body[p + 1..q]
  {
    NoTextCapture(body, Title);
    SearchIsFirst(body, Head, a, p, q);
  }

  /** Without title or head text, the signature is the body unchanged. */
  lemma SignatureWholeBody(body: string)
    requires NoText(body, Title) && NoText(body, Head)
    ensures Signature(body) == body
  {
    NoTextCapture(body, Title);
    NoTextCapture(body, Head);
  }

  /** The signature is always a contiguous piece of the body (possibly all of it). */
  lemma SignatureIsInfix(body: string)
    ensures exists i: nat, j: nat :: i <= j <= |body| && Signature(body) == body[i..j]
  {
    var title := Search(body, Title);
    var head := Search(body, Head);
    if title.Some? && Capture(body, Title).value != "" {
      assert Signature(body) == body[title.value.gt + 1..title.value.close];
    } else if head.Some? && Capture(body, Head).value != "" {
      assert Signature(body) == body[head.value.gt + 1..head.value.close];
    } else {
      assert Signature(body) == body[0..|body|];
    }
  }
}
