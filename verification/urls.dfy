/** The URLs the checks derive from their arguments. */
module Urls {
  import opened Wrappers
  import opened Text

  const Sep := "://"

  /** The label prepended to probe for subdomain reflection. */
  const ReflectionLabel := "fo0o0o0o1."

  /** The query string appended to probe for CRLF injection: a `foo`
      parameter whose value carries an encoded CR LF and a `testfoo` header. */
  const CrlfProbe := "/?foo=foo%0D%0Atestfoo:testfoo"

  /** `protocol, domain = url.split("://")`: defined only when the separator
      occurs exactly once, otherwise Python raises a ValueError. */
  function SplitScheme(url: string): (r: Option<(string, string)>)
    ensures r.Some? ==> url == r.value.0 + Sep + r.value.1
    ensures r.Some? ==> !Contains(r.value.0, Sep) && !Contains(r.value.1, Sep)
    ensures r.None? ==> !Contains(url, Sep) ||
                        exists i: nat, j: nat :: i < j && OccursAt(url, Sep, i) && OccursAt(url, Sep, j)
  {
    match Find(url, Sep, 0)
    case None => None
    case Some(i) =>
      match Find(url, Sep, i + |Sep|)
      case Some(j) => None
      case None =>
        var protocol, domain := url[..i], url[i + |Sep|..];
        assert url == protocol + Sep + domain by {
          assert url[i..i + |Sep|] == Sep;
        }
        NoSepInPrefix(url, i);
        NoSepInSuffix(url, i + |Sep|);
        Some((protocol, domain))
  }

  lemma NoSepInPrefix(url: string, i: nat)
    requires i <= |url|
    requires forall j :: 0 <= j < i ==> !OccursAt(url, Sep, j)
    ensures !Contains(url[..i], Sep)
  {
    ContainsIff(url[..i], Sep);
    forall j: nat | OccursAt(url[..i], Sep, j)
      ensures false
    {
      OccursInPrefix(url, Sep, i, j);
    }
  }

  lemma NoSepInSuffix(url: string, k: nat)
    requires k <= |url|
    requires forall j :: k <= j ==> !OccursAt(url, Sep, j)
    ensures !Contains(url[k..], Sep)
  {
    ContainsIff(url[k..], Sep);
    forall j: nat | OccursAt(url[k..], Sep, j)
      ensures false
    {
      OccursInSuffix(url, Sep, k, j);
    }
  }

  /** Joining a protocol and a domain that hold no separator and splitting
      again gives them back. */
  lemma {:induction false} SplitJoin(protocol: string, domain: string)
    requires !Contains(protocol, Sep) && !Contains(domain, Sep)
    ensures SplitScheme(protocol + Sep + domain) == Some((protocol, domain))
  {
    var url := protocol + Sep + domain;
    var n := |protocol|;
    ContainsIff(protocol, Sep);
    ContainsIff(domain, Sep);
    assert OccursAt(url, Sep, n) by {
      assert url[n..n + 3] == Sep;
    }
    forall j: nat | j != n && j + 3 <= |url|
      ensures !OccursAt(url, Sep, j)
    {
      if j + 3 <= n {
        assert url[..n] == protocol;
        OccursInPrefix(url, Sep, n, j);
      } else if j < n {
        // would straddle the end of the protocol: the separator's `:` sits
        // where a `/` is needed
        assert url[j..j + 3][n - j] == url[n] == ':';
      } else if j < n + 3 {
        assert url[j..j + 3][0] == url[j] == '/';
      } else {
        assert url[n + 3..] == domain;
        OccursInSuffix(url, Sep, n + 3, j - (n + 3));
      }
    }
    assert Find(url, Sep, 0) == Some(n);
    assert Find(url, Sep, n + 3) == None;
  }

  /** The URL probed for subdomain reflection: the label, optionally followed
      by `www.`, placed in front of the domain of `baseUrl`. */
  function ReflectionUrl(baseUrl: string, withWww: bool): Option<string> {
    match SplitScheme(baseUrl)
    case None => None
    case Some((protocol, domain)) =>
      Some(protocol + Sep + ReflectionLabel + (if withWww then "www." else "") + domain)
  }

  /** With `baseUrl = p://d`, the probe is `p://fo0o0o0o1.www.d` or `p://fo0o0o0o1.d`. */
  lemma ReflectionUrlShape(protocol: string, domain: string, withWww: bool)
    requires !Contains(protocol, Sep) && !Contains(domain, Sep)
    ensures withWww ==> ReflectionUrl(protocol + Sep + domain, withWww) == Some(protocol + "://fo0o0o0o1.www." + domain)
    ensures !withWww ==> ReflectionUrl(protocol + Sep + domain, withWww) == Some(protocol + "://fo0o0o0o1." + domain)
  {
    SplitJoin(protocol, domain);
    if withWww {
      assert protocol + Sep + ReflectionLabel + "www." + domain == protocol + "://fo0o0o0o1.www." + domain;
    } else {
      assert protocol + Sep + ReflectionLabel + "" + domain == protocol + "://fo0o0o0o1." + domain;
    }
  }
}
