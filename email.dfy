/**
 * The e-mail pattern of the User schema,
 * `^\w+([.-]?\w+)*@\w+([.-]?\w+)*(\.\w{2,3})+$`, twice: once as the
 * grammar the regular expression denotes, and once as a recogniser that
 * tests the shape of the string directly. The two are proved to accept
 * the same strings.
 */
module Email {

  /** `\w`. */
  predicate IsWordChar(c: char) {
    ('A' <= c <= 'Z') || ('a' <= c <= 'z') || ('0' <= c <= '9') || c == '_'
  }

  /** `[.-]`. */
  predicate IsSep(c: char) {
    c == '.' || c == '-'
  }

  // ---------------------------------------------------------------------
  // The grammar, read off the regular expression.

  /** `\w+` */
  ghost predicate Word(s: string) {
    |s| >= 1 && forall i :: 0 <= i < |s| ==> IsWordChar(s[i])
  }

  /** `[.-]?\w+` */
  ghost predicate Group(s: string) {
    Word(s) || (|s| >= 2 && IsSep(s[0]) && Word(s[1..]))
  }

  /** `([.-]?\w+)*` */
  ghost predicate Groups(s: string)
    decreases |s|
  {
    s == [] || exists k :: 0 < k <= |s| && Group(s[..k]) && Groups(s[k..])
  }

  /** `\w+([.-]?\w+)*`, the part before `@` and the start of the part after it. */
  ghost predicate Local(s: string) {
    exists k :: 0 < k <= |s| && Word(s[..k]) && Groups(s[k..])
  }

  /** `\.\w{2,3}` */
  ghost predicate Tld(s: string) {
    2 <= |s| - 1 <= 3 && s[0] == '.' && Word(s[1..])
  }

  /** `(\.\w{2,3})+` */
  ghost predicate Tlds(s: string)
    decreases |s|
  {
    exists k :: 0 < k <= |s| && Tld(s[..k]) && (k == |s| || Tlds(s[k..]))
  }

  /** `\w+([.-]?\w+)*(\.\w{2,3})+` */
  ghost predicate Domain(s: string) {
    exists k :: 0 < k <= |s| && Local(s[..k]) && Tlds(s[k..])
  }

  /** The whole anchored pattern. */
  ghost predicate Matches(e: string) {
    exists j :: 0 <= j < |e| && e[j] == '@' && Local(e[..j]) && Domain(e[j + 1..])
  }

  // ---------------------------------------------------------------------
  // The recogniser.

  /** Every character is a word character, or a separator directly followed by one. */
  predicate Separated(s: string) {
    forall i :: 0 <= i < |s| ==> IsWordChar(s[i]) || (IsSep(s[i]) && i + 1 < |s| && IsWordChar(s[i + 1]))
  }

  /** Word characters with single separators between them, starting with a word character. */
  predicate IsChain(s: string) {
    s != [] && IsWordChar(s[0]) && Separated(s)
  }

  /** `s` ends in `.` followed by `k` word characters. */
  predicate EndsInTld(s: string, k: nat) {
    |s| >= k + 1 && s[|s| - k - 1] == '.' && forall i :: |s| - k <= i < |s| ==> IsWordChar(s[i])
  }

  /** A chain whose last dot is followed by two or three word characters. */
  predicate IsDomain(d: string) {
    IsChain(d) && (EndsInTld(d, 2) || EndsInTld(d, 3))
  }

  /** An `@` with a chain before it and a domain after it. */
  predicate IsEmail(e: string) {
    exists j :: 0 <= j < |e| && e[j] == '@' && IsChain(e[..j]) && IsDomain(e[j + 1..])
  }

  // ---------------------------------------------------------------------
  // The grammar and the recogniser agree.

  lemma SeparatedAt(s: string, i: int)
    requires Separated(s) && 0 <= i < |s|
    ensures IsWordChar(s[i]) || (IsSep(s[i]) && i + 1 < |s| && IsWordChar(s[i + 1]))
  {
  }

  lemma {:induction false} SeparatedGroups(s: string)
    requires Separated(s)
    ensures Groups(s)
    decreases |s|
  {
    if s != [] {
      SeparatedAt(s, 0);
      var k := if IsWordChar(s[0]) then 1 else 2;
      assert Group(s[..k]) by {
        if k == 2 {
          assert s[..k][1..] == [s[1]];
        }
      }
      assert Separated(s[k..]) by {
        forall i | 0 <= i < |s[k..]|
          ensures IsWordChar(s[k..][i]) || (IsSep(s[k..][i]) && i + 1 < |s[k..]| && IsWordChar(s[k..][i + 1]))
        {
          assert s[k..][i] == s[k + i];
          SeparatedAt(s, k + i);
          if i + 1 < |s[k..]| {
            assert s[k..][i + 1] == s[k + i + 1];
          }
        }
      }
      SeparatedGroups(s[k..]);
    }
  }

  /** A word or a group followed by separated text is separated. */
  lemma GroupThenSeparated(g: string, rest: string)
    requires Group(g) && Separated(rest)
    ensures Separated(g + rest)
  {
    var s := g + rest;
    forall i | 0 <= i < |s|
      ensures IsWordChar(s[i]) || (IsSep(s[i]) && i + 1 < |s| && IsWordChar(s[i + 1]))
    {
      if i < |g| {
        assert s[i] == g[i];
        if !Word(g) && i == 0 {
          assert g[1..][0] == g[1];
          assert s[1] == g[1];
        } else if !Word(g) {
          assert g[1..][i - 1] == g[i];
        }
      } else {
        assert s[i] == rest[i - |g|];
        SeparatedAt(rest, i - |g|);
        if i + 1 < |s| {
          assert s[i + 1] == rest[i + 1 - |g|];
        }
      }
    }
  }

  lemma {:induction false} GroupsSeparated(s: string)
    requires Groups(s)
    ensures Separated(s)
    decreases |s|
  {
    if s != [] {
      var k :| 0 < k <= |s| && Group(s[..k]) && Groups(s[k..]);
      GroupsSeparated(s[k..]);
      GroupThenSeparated(s[..k], s[k..]);
      assert s[..k] + s[k..] == s;
    }
  }

  /** `([.-]?\w+)*` is exactly the separated strings. */
  lemma GroupsIff(s: string)
    ensures Groups(s) <==> Separated(s)
  {
    if Groups(s) {
      GroupsSeparated(s);
    }
    if Separated(s) {
      SeparatedGroups(s);
    }
  }

  lemma SeparatedSuffix(s: string, k: nat)
    requires Separated(s) && k <= |s|
    ensures Separated(s[k..])
  {
    forall i | 0 <= i < |s[k..]|
      ensures IsWordChar(s[k..][i]) || (IsSep(s[k..][i]) && i + 1 < |s[k..]| && IsWordChar(s[k..][i + 1]))
    {
      assert s[k..][i] == s[k + i];
      SeparatedAt(s, k + i);
      if i + 1 < |s[k..]| {
        assert s[k..][i + 1] == s[k + i + 1];
      }
    }
  }

  /** `\w+([.-]?\w+)*` is exactly the chains. */
  lemma LocalIff(s: string)
    ensures Local(s) <==> IsChain(s)
  {
    if Local(s) {
      var k :| 0 < k <= |s| && Word(s[..k]) && Groups(s[k..]);
      GroupsSeparated(s[k..]);
      GroupThenSeparated(s[..k], s[k..]);
      assert s[..k] + s[k..] == s;
      assert s[0] == s[..k][0];
    }
    if IsChain(s) {
      SeparatedSuffix(s, 1);
      SeparatedGroups(s[1..]);
      assert Word(s[..1]);
    }
  }

  lemma TldShape(g: string)
    requires Tld(g)
    ensures Group(g) && g[0] == '.' && Separated(g) && EndsInTld(g, |g| - 1)
  {
    GroupThenSeparated(g, []);
    assert g + [] == g;
    forall i | 1 <= i < |g| ensures IsWordChar(g[i]) {
      assert g[i] == g[1..][i - 1];
    }
  }

  lemma EndsInTldAppend(a: string, t: string, n: nat)
    requires EndsInTld(t, n)
    ensures EndsInTld(a + t, n)
  {
    var s := a + t;
    assert s[|s| - n - 1] == t[|t| - n - 1];
    forall i | |s| - n <= i < |s| ensures IsWordChar(s[i]) {
      assert s[i] == t[i - |a|];
    }
  }

  /** What one or more top-level domains look like. */
  lemma {:induction false} TldsShape(t: string)
    requires Tlds(t)
    ensures t != [] && t[0] == '.' && Separated(t) && (EndsInTld(t, 2) || EndsInTld(t, 3))
    decreases |t|
  {
    var k :| 0 < k <= |t| && Tld(t[..k]) && (k == |t| || Tlds(t[k..]));
    var g, rest := t[..k], t[k..];
    TldShape(g);
    assert t == g + rest;
    if k == |t| {
      assert t == g;
    } else {
      TldsShape(rest);
      GroupThenSeparated(g, rest);
      if EndsInTld(rest, 2) {
        EndsInTldAppend(g, rest, 2);
      } else {
        EndsInTldAppend(g, rest, 3);
      }
    }
  }

  /** A chain followed by a separated string that starts with `.` is still a chain. */
  lemma ChainThenDotted(c: string, t: string)
    requires IsChain(c) && Separated(t) && t != [] && t[0] == '.'
    ensures IsChain(c + t)
  {
    var s := c + t;
    assert s[0] == c[0];
    forall i | 0 <= i < |s|
      ensures IsWordChar(s[i]) || (IsSep(s[i]) && i + 1 < |s| && IsWordChar(s[i + 1]))
    {
      if i < |c| {
        assert s[i] == c[i];
        SeparatedAt(c, i);
        if i + 1 < |c| {
          assert s[i + 1] == c[i + 1];
        } else {
          assert s[i + 1] == t[0];
        }
      } else {
        assert s[i] == t[i - |c|];
        SeparatedAt(t, i - |c|);
        if i + 1 < |s| {
          assert s[i + 1] == t[i + 1 - |c|];
        }
      }
    }
  }

  lemma DomainToShape(d: string)
    requires Domain(d)
    ensures IsDomain(d)
  {
    var k :| 0 < k <= |d| && Local(d[..k]) && Tlds(d[k..]);
    var c, t := d[..k], d[k..];
    assert d == c + t;
    LocalIff(c);
    TldsShape(t);
    ChainThenDotted(c, t);
    if EndsInTld(t, 2) {
      EndsInTldAppend(c, t, 2);
    } else {
      EndsInTldAppend(c, t, 3);
    }
  }

  lemma ShapeToDomain(d: string)
    requires IsDomain(d)
    ensures Domain(d)
  {
    var n := if EndsInTld(d, 2) then 2 else 3;
    var k := |d| - n - 1;
    var c, t := d[..k], d[k..];
    assert IsChain(c) by {
      assert c[0] == d[0];
      forall i | 0 <= i < |c|
        ensures IsWordChar(c[i]) || (IsSep(c[i]) && i + 1 < |c| && IsWordChar(c[i + 1]))
      {
        assert c[i] == d[i];
        SeparatedAt(d, i);
        if i + 1 < |c| {
          assert c[i + 1] == d[i + 1];
        } else {
          assert d[i + 1] == '.';
        }
      }
    }
    LocalIff(c);
    assert Tld(t) by {
      assert t[0] == '.';
      forall i | 0 <= i < |t[1..]| ensures IsWordChar(t[1..][i]) {
        assert t[1..][i] == d[k + 1 + i];
      }
    }
    assert t[..|t|] == t;
    assert Tlds(t);
    assert d[..k] == c;
  }

  /** The recogniser accepts exactly what the regular expression matches. */
  lemma MatchesIff(e: string)
    ensures Matches(e) <==> IsEmail(e)
  {
    if Matches(e) {
      var j :| 0 <= j < |e| && e[j] == '@' && Local(e[..j]) && Domain(e[j + 1..]);
      LocalIff(e[..j]);
      DomainToShape(e[j + 1..]);
    }
    if IsEmail(e) {
      var j :| 0 <= j < |e| && e[j] == '@' && IsChain(e[..j]) && IsDomain(e[j + 1..]);
      LocalIff(e[..j]);
      ShapeToDomain(e[j + 1..]);
    }
  }

  // ---------------------------------------------------------------------
  // What an accepted address looks like, and that this describes it fully.

  /** The characters the pattern can match at all. */
  predicate Allowed(c: char) {
    IsWordChar(c) || IsSep(c) || c == '@'
  }

  /** `j` is the only position of an `@`. */
  predicate OnlyAt(e: string, j: int) {
    0 <= j < |e| && e[j] == '@' && forall i :: 0 <= i < |e| && e[i] == '@' ==> i == j
  }

  /**
   * The listed traits: one `@`; only word characters, `.`, `-` and `@`;
   * a word character first; `.` and two or three word characters last; no
   * separator followed by a separator or by `@`; no separator right after `@`.
   */
  predicate Traits(e: string) {
    (exists j :: 0 <= j < |e| && OnlyAt(e, j)) &&
    (forall i :: 0 <= i < |e| ==> Allowed(e[i])) &&
    e != [] && IsWordChar(e[0]) &&
    (EndsInTld(e, 2) || EndsInTld(e, 3)) &&
    (forall i :: 0 <= i < |e| - 1 && IsSep(e[i]) ==> !IsSep(e[i + 1]) && e[i + 1] != '@') &&
    (forall i :: 0 <= i < |e| - 1 && e[i] == '@' ==> !IsSep(e[i + 1]))
  }

  /** The facts about one position of an address split at `j`. */
  lemma SplitAt(e: string, j: int, i: int)
    requires 0 <= j < |e| && e[j] == '@' && IsChain(e[..j]) && IsDomain(e[j + 1..])
    requires 0 <= i < |e|
    ensures Allowed(e[i]) && (e[i] == '@' ==> i == j)
    ensures i < |e| - 1 && IsSep(e[i]) ==> !IsSep(e[i + 1]) && e[i + 1] != '@'
    ensures i == j && i < |e| - 1 ==> !IsSep(e[i + 1])
  {
    var c, d := e[..j], e[j + 1..];
    if i < j {
      assert e[i] == c[i];
      SeparatedAt(c, i);
      if i + 1 < j {
        assert e[i + 1] == c[i + 1];
      }
    } else if i > j {
      assert e[i] == d[i - j - 1];
      SeparatedAt(d, i - j - 1);
      if i + 1 < |e| {
        assert e[i + 1] == d[i - j];
      }
    } else {
      assert e[j + 1] == d[0];
    }
  }

  lemma EmailHasTraits(e: string)
    requires IsEmail(e)
    ensures Traits(e)
  {
    var j :| 0 <= j < |e| && e[j] == '@' && IsChain(e[..j]) && IsDomain(e[j + 1..]);
    var d := e[j + 1..];
    forall i | 0 <= i < |e|
      ensures Allowed(e[i]) && (e[i] == '@' ==> i == j)
      ensures i < |e| - 1 && IsSep(e[i]) ==> !IsSep(e[i + 1]) && e[i + 1] != '@'
      ensures i < |e| - 1 && e[i] == '@' ==> !IsSep(e[i + 1])
    {
      SplitAt(e, j, i);
    }
    assert OnlyAt(e, j);
    assert e[0] == e[..j][0];
    assert e == e[..j + 1] + d;
    if EndsInTld(d, 2) {
      EndsInTldAppend(e[..j + 1], d, 2);
    } else {
      EndsInTldAppend(e[..j + 1], d, 3);
    }
  }

  lemma TraitsMakeChain(e: string, j: int)
    requires Traits(e) && OnlyAt(e, j)
    ensures IsChain(e[..j])
  {
    var c := e[..j];
    assert j > 0;
    assert c[0] == e[0];
    forall i | 0 <= i < |c|
      ensures IsWordChar(c[i]) || (IsSep(c[i]) && i + 1 < |c| && IsWordChar(c[i + 1]))
    {
      assert c[i] == e[i];
      assert Allowed(e[i]) && e[i] != '@';
      if IsSep(e[i]) {
        assert Allowed(e[i + 1]);
        assert i + 1 != j;
        assert c[i + 1] == e[i + 1];
      }
    }
  }

  lemma TraitsMakeDomain(e: string, j: int)
    requires Traits(e) && OnlyAt(e, j)
    ensures IsDomain(e[j + 1..])
  {
    var d := e[j + 1..];
    var n := if EndsInTld(e, 2) then 2 else 3;
    var p := |e| - n - 1;
    assert e[p] == '.';
    assert j < |e| - n;
    assert p != j + 1;
    assert d[0] == e[j + 1];
    assert Allowed(e[j + 1]) && e[j + 1] != '@' && !IsSep(e[j + 1]);
    forall i | 0 <= i < |d|
      ensures IsWordChar(d[i]) || (IsSep(d[i]) && i + 1 < |d| && IsWordChar(d[i + 1]))
    {
      assert d[i] == e[j + 1 + i];
      assert Allowed(e[j + 1 + i]) && e[j + 1 + i] != '@';
      if IsSep(e[j + 1 + i]) {
        assert j + 1 + i < |e| - 1;
        assert Allowed(e[j + 2 + i]);
        assert d[i + 1] == e[j + 2 + i];
      }
    }
    assert d[|d| - n - 1] == e[p];
    forall i | |d| - n <= i < |d| ensures IsWordChar(d[i]) {
      assert d[i] == e[j + 1 + i];
    }
    assert EndsInTld(d, n);
  }

  lemma TraitsMakeEmail(e: string)
    requires Traits(e)
    ensures IsEmail(e)
  {
    var j :| 0 <= j < |e| && OnlyAt(e, j);
    TraitsMakeChain(e, j);
    TraitsMakeDomain(e, j);
  }

  /** The recogniser accepts exactly the strings with the listed traits. */
  lemma EmailIffTraits(e: string)
    ensures IsEmail(e) <==> Traits(e)
  {
    if IsEmail(e) {
      EmailHasTraits(e);
    }
    if Traits(e) {
      TraitsMakeEmail(e);
    }
  }
}
