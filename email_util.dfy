/** The dummy/test e-mail classifier. An address is lower-cased and then
    flagged when it is blacklisted, when its local part contains a test
    keyword, when its domain is one of the listed throw-away domains, or when
    its local part starts with a numbered test prefix. Lower-casing is ASCII
    only and the blacklist is a parameter. */
module EmailUtil {
  import opened Wrappers

  // ---------------------------------------------------------------------------
  // Characters and lower-casing
  // ---------------------------------------------------------------------------

  predicate IsUpper(c: char)
  {
    'A' <= c <= 'Z'
  }

  /** The regular-expression class `\d` without the unicode flag. */
  predicate IsDigit(c: char)
  {
    '0' <= c <= '9'
  }

  function LowerChar(c: char): (r: char)
    ensures !IsUpper(r)
    ensures !IsUpper(c) ==> r == c
    ensures IsUpper(c) ==> r as int == c as int + 32
    ensures (r == '@') == (c == '@')
  {
    if IsUpper(c) then (c as int + 32) as char else c
  }

  /** `toLowerCase` restricted to ASCII letters. */
  function Lower(s: string): (r: string)
    ensures |r| == |s|
    ensures forall i :: 0 <= i < |s| ==> r[i] == LowerChar(s[i])
  {
    if s == [] then [] else [LowerChar(s[0])] + Lower(s[1..])
  }

  /** A string with no upper-case letter is its own lower-case form. */
  lemma LowerFixesLowercase(s: string)
    requires forall c :: c in s ==> !IsUpper(c)
    ensures Lower(s) == s
  {
    forall i | 0 <= i < |s| ensures Lower(s)[i] == s[i] {
      assert s[i] in s;
    }
  }

  lemma LowerIdempotent(s: string)
    ensures Lower(Lower(s)) == Lower(s)
  {
    LowerFixesLowercase(Lower(s));
  }

  /** Lower-casing neither creates nor removes an '@'. */
  lemma LowerKeepsAt(s: string)
    ensures ('@' in Lower(s)) == ('@' in s)
  {
    if '@' in s {
      var i :| 0 <= i < |s| && s[i] == '@';
      assert Lower(s)[i] == '@';
    }
    if '@' in Lower(s) {
      var i :| 0 <= i < |s| && Lower(s)[i] == '@';
      assert s[i] == '@';
    }
  }

  // ---------------------------------------------------------------------------
  // Splitting on '@' (`split('@')`)
  // ---------------------------------------------------------------------------

  /** The pieces of `s` between '@' characters; an empty string gives one
      empty piece. */
  function Split(s: string): (r: seq<string>)
    ensures |r| >= 1
    ensures forall k :: 0 <= k < |r| ==> '@' !in r[k]
  {
    if s == [] then [[]]
    else
      var rest := Split(s[1..]);
      if s[0] == '@' then [[]] + rest
      else [[s[0]] + rest[0]] + rest[1..]
  }

  /** The pieces glued back together with '@'. */
  function Join(pieces: seq<string>): string
    requires |pieces| >= 1
  {
    if |pieces| == 1 then pieces[0] else pieces[0] + "@" + Join(pieces[1..])
  }

  lemma {:induction false} JoinSplit(s: string)
    ensures Join(Split(s)) == s
  {
    if s != [] {
      var rest := Split(s[1..]);
      JoinSplit(s[1..]);
      if s[0] == '@' {
        assert Split(s) == [[]] + rest;
        assert ([[]] + rest)[1..] == rest;
      } else {
        var r := [[s[0]] + rest[0]] + rest[1..];
        assert Split(s) == r;
        if |rest| == 1 {
          assert Join(r) == [s[0]] + rest[0];
        } else {
          assert r[1..] == rest[1..];
          assert Join(rest) == rest[0] + "@" + Join(rest[1..]);
          assert Join(r) == [s[0]] + rest[0] + "@" + Join(rest[1..]);
        }
        assert s == [s[0]] + s[1..];
      }
    }
  }

  /** An '@'-free string is a single piece. */
  lemma {:induction false} SplitNoAt(s: string)
    requires '@' !in s
    ensures Split(s) == [s]
  {
    if s != [] {
      assert s[0] in s;
      assert '@' !in s[1..] by {
        forall c | c in s[1..] ensures c in s { }
      }
      SplitNoAt(s[1..]);
      assert s == [s[0]] + s[1..];
    }
  }

  /** The first '@' of `l + "@" + r` ends the first piece when `l` has none. */
  lemma {:induction false} SplitAt(l: string, r: string)
    requires '@' !in l
    ensures Split(l + "@" + r) == [l] + Split(r)
  {
    var s := l + "@" + r;
    if l == [] {
      assert s == "@" + r && s[1..] == r;
    } else {
      assert l[0] in l;
      assert '@' !in l[1..] by {
        forall c | c in l[1..] ensures c in l { }
      }
      SplitAt(l[1..], r);
      assert s[0] == l[0] && s[1..] == l[1..] + "@" + r;
      assert [l[0]] + l[1..] == l;
    }
  }

  lemma {:induction false} SplitJoin(pieces: seq<string>)
    requires |pieces| >= 1
    requires forall k :: 0 <= k < |pieces| ==> '@' !in pieces[k]
    ensures Split(Join(pieces)) == pieces
  {
    if |pieces| == 1 {
      SplitNoAt(pieces[0]);
    } else {
      SplitJoin(pieces[1..]);
      SplitAt(pieces[0], Join(pieces[1..]));
    }
  }

  /** The text before the first '@' (the whole string when there is none). */
  function LocalPart(e: string): string
  {
    Split(e)[0]
  }

  /** The text between the first and the second '@'; None when there is no
      '@' at all, which the domain list never contains. */
  function Domain(e: string): Option<string>
  {
    var pieces := Split(e);
    if |pieces| >= 2 then Some(pieces[1]) else None
  }

  /** The local part is the longest '@'-free prefix. */
  lemma LocalPartIsPrefix(e: string)
    ensures '@' !in LocalPart(e)
    ensures LocalPart(e) <= e
    ensures |LocalPart(e)| < |e| ==> e[|LocalPart(e)|] == '@'
  {
    var pieces := Split(e);
    JoinSplit(e);
    if |pieces| >= 2 {
      assert e == pieces[0] + "@" + Join(pieces[1..]);
    }
  }

  /** An '@'-free prefix of the address lies inside its local part. */
  lemma AtFreePrefixInLocalPart(e: string, n: nat)
    requires n <= |e| && '@' !in e[..n]
    ensures n <= |LocalPart(e)| && LocalPart(e)[..n] == e[..n]
  {
    LocalPartIsPrefix(e);
  }

  /** The domain is absent exactly when the address has no '@'. */
  lemma DomainAbsentIff(e: string)
    ensures Domain(e).None? <==> '@' !in e
  {
    LocalPartIsPrefix(e);
    JoinSplit(e);
    if Domain(e).None? {
      assert e == LocalPart(e);
    } else {
      assert |LocalPart(e)| < |e|;
    }
  }

  /** Reading `l@d` or `l@d@...` back: local part `l`, domain `d`. */
  lemma ParseAddress(l: string, d: string, rest: string)
    requires '@' !in l && '@' !in d
    requires rest == "" || rest[0] == '@'
    ensures LocalPart(l + "@" + d + rest) == l
    ensures Domain(l + "@" + d + rest) == Some(d)
  {
    assert l + "@" + d + rest == l + "@" + (d + rest);
    SplitAt(l, d + rest);
    if rest == "" {
      assert d + rest == d;
      SplitNoAt(d);
    } else {
      assert d + rest == d + "@" + rest[1..];
      SplitAt(d, rest[1..]);
    }
  }

  // ---------------------------------------------------------------------------
  // Substring test (`includes`)
  // ---------------------------------------------------------------------------

  ghost predicate OccursAt(s: string, p: string, i: nat)
  {
    i + |p| <= |s| && s[i..i + |p|] == p
  }

  function Includes(s: string, p: string): bool
    decreases |s|
  {
    if |p| > |s| then false
    else if s[..|p|] == p then true
    else Includes(s[1..], p)
  }

  /** `Includes` is the existence of an occurrence. */
  lemma {:induction false} IncludesIff(s: string, p: string)
    ensures Includes(s, p) <==> exists i: nat :: OccursAt(s, p, i)
    decreases |s|
  {
    if |p| > |s| {
    } else if s[..|p|] == p {
      assert OccursAt(s, p, 0);
    } else {
      IncludesIff(s[1..], p);
      if Includes(s[1..], p) {
        var i: nat :| OccursAt(s[1..], p, i);
        assert s[i + 1..i + 1 + |p|] == s[1..][i..i + |p|];
        assert OccursAt(s, p, i + 1);
      }
      if i: nat :| OccursAt(s, p, i) {
        assert i != 0;
        assert s[1..][i - 1..i - 1 + |p|] == s[i..i + |p|];
        assert OccursAt(s[1..], p, i - 1);
      }
    }
  }

  // ---------------------------------------------------------------------------
  // The classifier
  // ---------------------------------------------------------------------------

  /** Keywords checked as substrings of the local part. */
  const TestPatterns: seq<string> :=
    ["test", "dummy", "sample", "example", "fake", "temp", "disposable", "mailinator"]

  /** Domains checked for exact equality with the domain. */
  const TestDomains: seq<string> :=
    ["mailinator.com", "tempmail.com", "test.com", "example.com", "yopmail.com",
     "guerrillamail.com", "sharklasers.com", "temp-mail.org"]

  /** The alternatives of the anchored pattern `^(test|user|temp|dummy)\d+`. */
  const NumberedPrefixes: seq<string> := ["test", "user", "temp", "dummy"]

  predicate HasKeyword(local: string)
  {
    exists k :: k in TestPatterns && Includes(local, k)
  }

  predicate ListedDomain(domain: Option<string>)
  {
    domain.Some? && domain.value in TestDomains
  }

  /** The local part starts with a numbered prefix followed by a digit; the
      rest of `\d+` cannot change whether the pattern matches. */
  predicate IsNumbered(local: string)
  {
    exists p :: p in NumberedPrefixes && |p| < |local| && local[..|p|] == p && IsDigit(local[|p|])
  }

  /** The four checks in the order the classifier tries them, each returning
      true early. */
  function IsDummyEmail(email: string, blacklist: seq<string>): (r: bool)
    ensures r <==> var e := Lower(email);
                   e in blacklist || HasKeyword(LocalPart(e))
                   || ListedDomain(Domain(e)) || IsNumbered(LocalPart(e))
  {
    var e := Lower(email);
    if e in blacklist then true
    else
      var local, domain := LocalPart(e), Domain(e);
      if HasKeyword(local) then true
      else if ListedDomain(domain) then true
      else if IsNumbered(local) then true
      else false
  }

  // ---------------------------------------------------------------------------
  // Properties
  // ---------------------------------------------------------------------------

  /** The verdict depends only on the lower-cased address. */
  lemma DummyIgnoresCase(email: string, blacklist: seq<string>)
    ensures IsDummyEmail(email, blacklist) == IsDummyEmail(Lower(email), blacklist)
  {
    LowerIdempotent(email);
  }

  /** A keyword occurring before the first '@' flags the address. */
  lemma KeywordFlags(email: string, blacklist: seq<string>, before: string, k: string, after: string)
    requires k in TestPatterns
    requires Lower(email) == before + k + after
    requires '@' !in before + k
    ensures IsDummyEmail(email, blacklist)
  {
    var e := Lower(email);
    var local := LocalPart(e);
    var n := |before| + |k|;
    assert Includes(local, k) by {
      assert e[..n] == before + k;
      AtFreePrefixInLocalPart(e, n);
      assert local[|before|..n] == (before + k)[|before|..] == k;
      assert OccursAt(local, k, |before|);
      IncludesIff(local, k);
    }
  }

  /** A listed domain, the text right after the first '@' up to the next
      '@' or the end, flags the address; there is no suffix matching. */
  lemma DomainFlags(email: string, blacklist: seq<string>, l: string, d: string, rest: string)
    requires Lower(email) == l + "@" + d + rest
    requires '@' !in l && '@' !in d
    requires rest == "" || rest[0] == '@'
    requires d in TestDomains
    ensures IsDummyEmail(email, blacklist)
  {
    ParseAddress(l, d, rest);
  }

  /** A numbered prefix and a digit at the start of the address flag it. */
  lemma NumberedFlags(email: string, blacklist: seq<string>, p: string, d: char, after: string)
    requires p in NumberedPrefixes && IsDigit(d)
    requires Lower(email) == p + [d] + after
    ensures IsDummyEmail(email, blacklist)
  {
    var e := Lower(email);
    var local := LocalPart(e);
    var n := |p| + 1;
    assert '@' !in e[..n] by {
      assert '@' !in p;
      assert e[..n] == p + [d];
    }
    AtFreePrefixInLocalPart(e, n);
    assert IsNumbered(local) by {
      assert local[..|p|] == (p + [d])[..|p|] == p;
      assert local[|p|] == d;
    }
  }

  /** Without an '@' there is no domain, and the local part is the whole
      lower-cased address. */
  lemma NoAtSignNoDomain(email: string, blacklist: seq<string>)
    requires '@' !in email
    ensures Domain(Lower(email)) == None
    ensures IsDummyEmail(email, blacklist) <==>
              var e := Lower(email);
              e in blacklist || HasKeyword(e) || IsNumbered(e)
  {
    LowerKeepsAt(email);
    SplitNoAt(Lower(email));
  }

  /** Three of the four numbered prefixes are keywords too, so the numbered
      check only adds local parts starting with "user" and a digit. */
  lemma NumberedIsKeywordOrUser(local: string)
    requires IsNumbered(local)
    ensures HasKeyword(local) || (|local| > 4 && local[..4] == "user" && IsDigit(local[4]))
  {
    var p :| p in NumberedPrefixes && |p| < |local| && local[..|p|] == p && IsDigit(local[|p|]);
    if p != "user" {
      assert p in TestPatterns;
      assert Includes(local, p);
    }
  }

  lemma KeywordExample(email: string, blacklist: seq<string>)
    requires email == "mytestacct@x.io"
    ensures IsDummyEmail(email, blacklist)
  {
    assert Lower(email) == "my" + "test" + "acct@x.io" by {
      LowerFixesLowercase(email);
      assert email == "my" + "test" + "acct@x.io";
    }
    assert '@' !in "my" + "test" && "test" in TestPatterns;
    KeywordFlags(email, blacklist, "my", "test", "acct@x.io");
  }

  lemma NumberedExample(email: string, blacklist: seq<string>)
    requires email == "user123@gmail.com"
    ensures IsDummyEmail(email, blacklist)
  {
    assert Lower(email) == "user" + ['1'] + "23@gmail.com" by {
      LowerFixesLowercase(email);
      assert email == "user" + ['1'] + "23@gmail.com";
    }
    assert "user" in NumberedPrefixes && IsDigit('1');
    NumberedFlags(email, blacklist, "user", '1', "23@gmail.com");
  }

  /** A sub-domain of a listed domain is not itself listed. */
  lemma SubdomainExample(email: string)
    requires email == "qa@a.test.com"
    ensures !IsDummyEmail(email, [])
  {
    var e := Lower(email);
    assert e == "qa" + "@" + "a.test.com" + "" by {
      LowerFixesLowercase(email);
      assert email == "qa" + "@" + "a.test.com" + "";
    }
    assert LocalPart(e) == "qa" && Domain(e) == Some("a.test.com") by {
      ParseAddress("qa", "a.test.com", "");
    }
    assert !HasKeyword("qa");
    assert !ListedDomain(Some("a.test.com"));
    assert !IsNumbered("qa");
  }
}
