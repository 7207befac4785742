/** Mail addresses: splitting them, and telling local domains from foreign ones. */
module Address {
  import opened Wrappers
  import opened Text

  datatype Config = Config(domain: string, extraDomains: seq<string>, relay: bool, maxMessageBytes: nat)

  /** The characters strings.TrimSpace removes. */
  function Spaces(): set<char> {
    {'\t', '\n', '\U{B}', '\U{C}', '\r', ' ', '\U{85}', '\U{A0}', '\U{1680}', '\U{2000}', '\U{2001}',
     '\U{2002}', '\U{2003}', '\U{2004}', '\U{2005}', '\U{2006}', '\U{2007}', '\U{2008}', '\U{2009}',
     '\U{200A}', '\U{2028}', '\U{2029}', '\U{202F}', '\U{205F}', '\U{3000}'}
  }

  predicate Blank(c: char) {
    c == ' ' || c == '\t' || c == '\r' || c == '\n'
  }

  predicate HasBlank(s: string) {
    exists i :: 0 <= i < |s| && Blank(s[i])
  }

  function TrimPrefix(s: string, c: char): string {
    if s != [] && s[0] == c then s[1..] else s
  }

  function TrimSuffix(s: string, c: char): string {
    if s != [] && s[|s| - 1] == c then s[..|s| - 1] else s
  }

  function Unwrapped(addr: string): string {
    TrimSuffix(TrimPrefix(Trim(addr, Spaces()), '<'), '>')
  }

  /** Local part as written and domain in lower case, around the last @. */
  function SplitAddress(addr: string): (r: Option<(string, string)>)
    ensures r.Some? ==> r.value.0 != "" && r.value.1 != "" && '@' !in r.value.1
    ensures r.Some? ==> !HasBlank(r.value.0) && !HasBlank(r.value.1) && Fold(r.value.1) == r.value.1
  {
    var bare := Unwrapped(addr);
    var at := LastIndex(bare, '@');
    if at <= 0 || at == |bare| - 1 then None
    else
      var local, domain := bare[..at], Fold(bare[at + 1..]);
      FoldKeepsAt(bare[at + 1..]);
      FoldIdempotent(bare[at + 1..]);
      if HasBlank(local) || HasBlank(domain) then None
      else
        assert '@' !in bare[at + 1..];
        Some((local, domain))
  }

  predicate IsLocalDomain(cfg: Config, domain: string) {
    EqualFold(domain, cfg.domain)
    || exists i :: 0 <= i < |cfg.extraDomains| && EqualFold(domain, cfg.extraDomains[i])
  }

  method CheckLocalDomain(cfg: Config, domain: string) returns (local: bool)
    ensures local == IsLocalDomain(cfg, domain)
  {
    if EqualFold(domain, cfg.domain) {
      return true;
    }
    for i := 0 to |cfg.extraDomains|
      invariant forall j :: 0 <= j < i ==> !EqualFold(domain, cfg.extraDomains[j])
    {
      if EqualFold(domain, cfg.extraDomains[i]) {
        return true;
      }
    }
    return false;
  }

  // ---- addresses the server itself forms

  /** Letters, digits and underscores, at least one: what an account ID is. */
  predicate IdPattern(id: string) {
    id != "" && forall i :: 0 <= i < |id| ==> IdChar(id[i])
  }

  predicate IdChar(c: char) {
    'A' <= c <= 'Z' || 'a' <= c <= 'z' || '0' <= c <= '9' || c == '_'
  }

  /** Letters, digits, dots and hyphens: what the configured domain is made of. */
  predicate DomainText(domain: string) {
    domain != "" && forall i :: 0 <= i < |domain| ==> DomainChar(domain[i])
  }

  predicate DomainChar(c: char) {
    'A' <= c <= 'Z' || 'a' <= c <= 'z' || '0' <= c <= '9' || c == '.' || c == '-'
  }

  function AddressOf(id: string, domain: string): string {
    id + "@" + domain
  }

  lemma FoldOfAddress(id: string, domain: string)
    ensures Fold(AddressOf(id, domain)) == Fold(id) + "@" + Fold(domain)
  {
    FoldConcat(id + "@", domain);
    FoldConcat(id, "@");
    assert Fold("@") == "@";
  }

  /** Any spelling of an account's own address splits into a spelling of its ID and the
      configured domain. */
  lemma OwnAddressSplits(from: string, id: string, domain: string)
    requires IdPattern(id) && DomainText(domain) && EqualFold(from, AddressOf(id, domain))
    ensures |from| > |id| && EqualFold(from[..|id|], id)
    ensures SplitAddress(from) == Some((from[..|id|], Fold(domain)))
  {
    FoldOfAddress(id, domain);
    SpellingParts(from, id, domain);
    SpellingSplits(from, id, domain);
  }

  lemma SpellingSplits(from: string, id: string, domain: string)
    requires IdPattern(id) && DomainText(domain) && Fold(from) == Fold(id) + "@" + Fold(domain)
    ensures |from| > |id| && SplitAddress(from) == Some((from[..|id|], Fold(from[|id| + 1..])))
  {
    SpelledLike(from, id, domain);
    PlainSplits(from, |id|);
  }

  /** n characters of an ID, an @ and the characters of a domain. */
  ghost predicate Plain(from: string, n: nat) {
    && 0 < n < |from| - 1 && from[n] == '@'
    && (forall i :: 0 <= i < n ==> IdChar(from[i]))
    && (forall i :: n < i < |from| ==> DomainChar(from[i]))
  }

  lemma SpellingParts(from: string, id: string, domain: string)
    requires |from| > |id| && Fold(from) == Fold(id) + "@" + Fold(domain)
    ensures Fold(from[..|id|]) == Fold(id) && Fold(from[|id| + 1..]) == Fold(domain)
  {
    FoldSlices(from, |id|);
    assert Fold(from)[..|id|] == Fold(id) && Fold(from)[|id| + 1..] == Fold(domain);
  }

  lemma FoldSlices(s: string, n: nat)
    requires n < |s|
    ensures Fold(s[..n]) == Fold(s)[..n] && Fold(s[n + 1..]) == Fold(s)[n + 1..]
  {
  }

  lemma PlainSplits(from: string, n: nat)
    requires Plain(from, n)
    ensures SplitAddress(from) == Some((from[..n], Fold(from[n + 1..])))
  {
    PlainEnds(from, n);
    UnwrappedPlain(from);
    LastAt(from, n);
    NoBlanks(from, n);
    SplitAt(from, n);
  }

  lemma LastAt(from: string, n: nat)
    requires Plain(from, n)
    ensures LastIndex(from, '@') == n
  {
    forall i | n < i < |from| ensures from[i] != '@' {
      assert DomainChar(from[i]);
    }
    LastIndexAt(from, '@', n);
  }

  lemma SplitAt(from: string, n: nat)
    requires Unwrapped(from) == from && LastIndex(from, '@') == n && 0 < n < |from| - 1
    requires !HasBlank(from[..n]) && !HasBlank(Fold(from[n + 1..]))
    ensures SplitAddress(from) == Some((from[..n], Fold(from[n + 1..])))
  {
  }

  lemma PlainEnds(from: string, n: nat)
    requires Plain(from, n)
    ensures from[0] !in Spaces() && from[0] != '<' && from[|from| - 1] !in Spaces() && from[|from| - 1] != '>'
  {
  }

  lemma NoBlanks(from: string, n: nat)
    requires Plain(from, n)
    ensures !HasBlank(from[..n]) && !HasBlank(Fold(from[n + 1..]))
  {
    var tail := from[n + 1..];
    forall i | 0 <= i < |tail| ensures !Blank(Fold(tail)[i]) {
      assert DomainChar(from[n + 1 + i]);
    }
  }

  /** The characters such a spelling is made of. */
  lemma SpelledLike(from: string, id: string, domain: string)
    requires IdPattern(id) && DomainText(domain)
    requires Fold(from) == Fold(id) + "@" + Fold(domain)
    ensures Plain(from, |id|)
  {
    var n := |id|;
    assert |from| == n + 1 + |domain|;
    assert Fold(from)[n] == '@';
    forall i | 0 <= i < n ensures IdChar(from[i]) {
      assert LowerChar(from[i]) == Fold(from)[i] == Fold(id)[i] == LowerChar(id[i]);
    }
    forall i | n < i < |from| ensures DomainChar(from[i]) {
      assert LowerChar(from[i]) == Fold(from)[i] == Fold(domain)[i - n - 1] == LowerChar(domain[i - n - 1]);
    }
  }

  lemma UnwrappedPlain(s: string)
    requires s != "" && s[0] !in Spaces() && s[0] != '<' && s[|s| - 1] !in Spaces() && s[|s| - 1] != '>'
    ensures Unwrapped(s) == s
  {
  }
}
