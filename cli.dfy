/** The command-line front end of the join script: the id-mapping argument,
    the principal name built for the directory searches, and the check of
    `realm list` output that skips a join to a domain already joined. */
module Cli {
  import opened Wrappers
  import opened Text

  datatype TokenError = BooleanExpected

  /** The fourth argument: `true`/`t` and `false`/`f` in any case; anything
      else raises. */
  function ParseIdMapToken(token: string): (r: Result<bool, TokenError>)
    ensures r == Ok(true) <==> Lower(token) == "true" || Lower(token) == "t"
    ensures r == Ok(false) <==> Lower(token) == "false" || Lower(token) == "f"
    ensures r.Err? <==> Lower(token) !in {"true", "t", "false", "f"}
  {
    var t := Lower(token);
    if t == "true" || t == "t" then Ok(true)
    else if t == "false" || t == "f" then Ok(false)
    else Err(BooleanExpected)
  }

  /** The answer never depends on the case the token is written in. */
  lemma ParseIgnoresCase(a: string, b: string)
    requires Lower(a) == Lower(b)
    ensures ParseIdMapToken(a) == ParseIdMapToken(b)
  {
  }

  /** Upper-cased tokens mean what they mean in lower case. */
  lemma ParseUpperCase(token: string)
    ensures ParseIdMapToken(Upper(token)) == ParseIdMapToken(token)
  {
    LowerOfUpper(token);
  }

  /** Python's spelling of the two booleans is accepted and read back. */
  lemma ParsesPythonBooleans(b: bool)
    ensures ParseIdMapToken(if b then "True" else "False") == Ok(b)
  {
    assert Lower("True") == "true";
    assert Lower("False") == "false";
  }

  /** `user + '@' + domain.upper()`: the principal used for the ticket and
      the directory binds. */
  function Upn(user: string, domain: string): string
  {
    user + "@" + Upper(domain)
  }

  /** A user name without `@` is recovered as the part before the first `@`,
      and the realm part is the upper-cased domain. */
  lemma UpnParts(user: string, domain: string)
    requires '@' !in user
    ensures Split(Upn(user, domain), '@') == [user] + Split(Upper(domain), '@')
    ensures Upn(user, domain)[|user| + 1..] == Upper(domain)
  {
    SplitAfter(user, Upper(domain), '@');
    assert Upn(user, domain) == user + ['@'] + Upper(domain);
  }

  /** Domains that differ only in case give the same principal. */
  lemma UpnIgnoresDomainCase(user: string, d1: string, d2: string)
    requires Lower(d1) == Lower(d2)
    ensures Upn(user, d1) == Upn(user, d2)
  {
    assert |d1| == |Lower(d1)| == |Lower(d2)| == |d2|;
    forall i | 0 <= i < |d1| ensures UpperChar(d1[i]) == UpperChar(d2[i]) {
      assert Lower(d1)[i] == Lower(d2)[i];
    }
    assert Upper(d1) == Upper(d2);
  }

  // ---------------------------------------------------------------------
  // `realm list`

  const DomainNameTag := "domain-name"

  /** A line the scan keeps: it contains `domain-name`. */
  predicate Tagged(line: string)
  {
    Contains(line, DomainNameTag)
  }

  /** `line.split()[-1]` on a line the scan keeps; such a line has a
      non-space character, so it has a last word. */
  function LastWord(line: string): (w: string)
    requires Tagged(line)
    ensures w != [] && NoSpace(w)
  {
    assert !IsSpace(DomainNameTag[0]);
    ContainsNonSpace(line, DomainNameTag);
    WordsNonEmpty(line);
    var ws := Words(line);
    ws[|ws| - 1]
  }

  /** The domain the scan reports: the last word of the last tagged line, or
      the empty string when no line is tagged. */
  function JoinedDomain(lines: seq<string>): string
  {
    if lines == [] then ""
    else if Tagged(lines[|lines| - 1]) then LastWord(lines[|lines| - 1])
    else JoinedDomain(lines[..|lines| - 1])
  }

  /** The loop over the lines of `realm list`, keeping the last word of every
      tagged line it meets. */
  method DetectJoinedDomain(lines: seq<string>) returns (joined: string)
    ensures joined == JoinedDomain(lines)
  {
    joined := "";
    var i := 0;
    while i < |lines|
      invariant 0 <= i <= |lines|
      invariant joined == JoinedDomain(lines[..i])
    {
      assert lines[..i + 1][..i] == lines[..i];
      if Tagged(lines[i]) {
        joined := LastWord(lines[i]);
      }
      i := i + 1;
    }
    assert lines[..|lines|] == lines;
  }

  /** The scan reports nothing exactly when no line is tagged. */
  lemma {:induction false} JoinedDomainEmpty(lines: seq<string>)
    ensures JoinedDomain(lines) == "" <==> forall i :: 0 <= i < |lines| ==> !Tagged(lines[i])
  {
    if lines != [] {
      var init := lines[..|lines| - 1];
      JoinedDomainEmpty(init);
      if !Tagged(lines[|lines| - 1]) {
        assert forall i :: 0 <= i < |init| ==> init[i] == lines[i];
      }
    }
  }

  /** `i` is the last tagged line. */
  predicate LastTaggedAt(lines: seq<string>, i: int)
  {
    0 <= i < |lines| && Tagged(lines[i]) && forall j :: i < j < |lines| ==> !Tagged(lines[j])
  }

  /** What the scan reports is the last word of the last tagged line. */
  lemma {:induction false} JoinedDomainFromLastTagged(lines: seq<string>, i: int)
    requires LastTaggedAt(lines, i)
    ensures JoinedDomain(lines) == LastWord(lines[i])
    decreases |lines|
  {
    var n := |lines| - 1;
    if i < n {
      var init := lines[..n];
      assert !Tagged(lines[n]);
      assert forall j :: 0 <= j < n ==> init[j] == lines[j];
      assert LastTaggedAt(init, i);
      JoinedDomainFromLastTagged(init, i);
    }
  }

  /** The join is skipped when the reported domain equals the requested one
      up to case. */
  predicate AlreadyJoined(domain: string, joined: string)
  {
    Lower(domain) == Lower(joined)
  }

  /** Without a tagged line, only an empty domain argument counts as joined. */
  lemma NotJoinedWithoutDomainLine(lines: seq<string>, domain: string)
    requires forall i :: 0 <= i < |lines| ==> !Tagged(lines[i])
    ensures AlreadyJoined(domain, JoinedDomain(lines)) <==> domain == ""
  {
    JoinedDomainEmpty(lines);
    assert |Lower(domain)| == |domain|;
  }
}
