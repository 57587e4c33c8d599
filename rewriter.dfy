/**
  The table-reference rewriter `Replace`: substitutes one fully qualified
  table reference in a SQL text by a parenthesised subquery, in two passes.

  Pass 1 is the regular expression `(?i)<fullname>\sas\s([A-z0-9_]+)\s`
  replaced by `(<sql>) AS $1 `, read here with the full name taken literally
  (case-insensitively). Pass 2 is `strings.ReplaceAll` of the literal full
  name by `(<sql>) AS <shortname>`.
 */
module Rewriter {

  import opened Wrappers
  import opened Types
  import opened Text

  /** `\s` of Go's regular expressions: space, tab, newline, form feed, carriage return. */
  predicate IsSpace(c: char)
  {
    c == ' ' || c == '\t' || c == '\n' || c == '\U{000C}' || c == '\r'
  }

  /** The class `[A-z0-9_]`: the ASCII range from `A` to `z` (it holds the letters
      and also the six characters between `Z` and `a`), the digits and `_`. */
  predicate IsAliasChar(c: char)
  {
    ('A' <= c <= 'z') || ('0' <= c <= '9') || c == '_'
  }

  /** ASCII case folding, as `(?i)` applies it to ASCII letters. */
  function Lower(c: char): char
  {
    if 'A' <= c <= 'Z' then (c as int + 32) as char else c
  }

  predicate CaseEq(a: string, b: string)
  {
    |a| == |b| && forall i :: 0 <= i < |a| ==> Lower(a[i]) == Lower(b[i])
  }

  /** Length of the longest prefix of `s` made of alias characters. */
  function AliasLength(s: string): (n: nat)
    ensures n <= |s|
    ensures forall i :: 0 <= i < n ==> IsAliasChar(s[i])
    ensures n < |s| ==> !IsAliasChar(s[n])
  {
    if |s| > 0 && IsAliasChar(s[0]) then 1 + AliasLength(s[1..]) else 0
  }

  /** A match of the pattern at the start of a text: the captured alias and
      how many characters the match covers. */
  datatype Match = Match(alias: string, length: nat)

  /** `\sas\s([A-z0-9_]+)\s` at the start of `s`. The alias run is maximal,
      since a space can never be an alias character. */
  function AliasClause(s: string): (m: Option<Match>)
    ensures m.Some? ==> 5 <= m.value.length <= |s| && m.value.length == |m.value.alias| + 5
  {
    if 4 <= |s| && IsSpace(s[0]) && Lower(s[1]) == 'a' && Lower(s[2]) == 's' && IsSpace(s[3]) then
      var n := AliasLength(s[4..]);
      if 0 < n && 4 + n < |s| && IsSpace(s[4 + n]) then Some(Match(s[4..4 + n], 5 + n)) else None
    else None
  }

  /** The whole pattern at the start of `s`: the full name, then the alias clause. */
  function AliasedReference(s: string, name: string): (m: Option<Match>)
    ensures m.Some? ==> 5 <= m.value.length <= |s|
  {
    if |name| <= |s| && CaseEq(s[..|name|], name) then
      match AliasClause(s[|name|..])
      case None => None
      case Some(c) => Some(Match(c.alias, |name| + c.length))
    else None
  }

  /** Pass 1: leftmost, non-overlapping matches of the aliased reference become
      `(<sql>) AS <alias> `; the text between matches is copied. */
  function RewriteAliased(s: string, name: string, sql: string): string
    decreases |s|
  {
    if |s| == 0 then ""
    else
      match AliasedReference(s, name)
      case Some(m) => "(" + sql + ") AS " + m.alias + " " + RewriteAliased(s[m.length..], name, sql)
      case None => [s[0]] + RewriteAliased(s[1..], name, sql)
  }

  /** `strings.ReplaceAll(s, pattern, repl)`. An empty `pattern` matches before every
      character and at the end. */
  function ReplaceAll(s: string, pattern: string, repl: string): string
    decreases |s|
  {
    if |pattern| == 0 then Interleave(s, repl)
    else if |s| == 0 then ""
    else if pattern <= s then repl + ReplaceAll(s[|pattern|..], pattern, repl)
    else [s[0]] + ReplaceAll(s[1..], pattern, repl)
  }

  function Interleave(s: string, repl: string): string
  {
    if |s| == 0 then repl else repl + [s[0]] + Interleave(s[1..], repl)
  }

  /** `Replace(sql, replacement)`: the zero replacement leaves the text alone. */
  function Replace(sql: string, r: Replacement): (out: string)
    ensures r == ZeroReplacement ==> out == sql
  {
    if r == ZeroReplacement then sql
    else
      var aliased := RewriteAliased(sql, r.tableFullName, r.replaceSql);
      ReplaceAll(aliased, r.tableFullName, "(" + r.replaceSql + ") AS " + r.tableShortName)
  }

  // ----- How the passes treat text without references -----

  lemma LowerTick(c: char)
    ensures Lower(c) == '`' <==> c == '`'
  {
  }

  /** A text that does not begin with a backtick does not begin with a quoted reference. */
  lemma NoMatchWithoutTick(s: string, name: string)
    requires QuotedName(name) && |s| > 0 && s[0] != '`'
    ensures AliasedReference(s, name).None?
    ensures !(name <= s)
  {
    LowerTick(s[0]);
  }

  lemma {:induction false} RewriteAliasedPrefix(pre: string, t: string, name: string, sql: string)
    requires QuotedName(name) && '`' !in pre
    ensures RewriteAliased(pre + t, name, sql) == pre + RewriteAliased(t, name, sql)
  {
    if |pre| > 0 {
      var s := pre + t;
      NoMatchWithoutTick(s, name);
      assert s[1..] == pre[1..] + t;
      assert '`' !in pre[1..];
      calc {
        RewriteAliased(s, name, sql);
        [s[0]] + RewriteAliased(s[1..], name, sql);
        { RewriteAliasedPrefix(pre[1..], t, name, sql); }
        [pre[0]] + (pre[1..] + RewriteAliased(t, name, sql));
        { assert pre == [pre[0]] + pre[1..]; Assoc([pre[0]], pre[1..], RewriteAliased(t, name, sql)); }
        pre + RewriteAliased(t, name, sql);
      }
    } else {
      assert pre + t == t;
    }
  }

  lemma {:induction false} ReplaceAllPrefix(pre: string, t: string, pattern: string, repl: string)
    requires QuotedName(pattern) && '`' !in pre
    ensures ReplaceAll(pre + t, pattern, repl) == pre + ReplaceAll(t, pattern, repl)
  {
    if |pre| > 0 {
      var s := pre + t;
      NoMatchWithoutTick(s, pattern);
      assert s[1..] == pre[1..] + t;
      assert '`' !in pre[1..];
      calc {
        ReplaceAll(s, pattern, repl);
        [s[0]] + ReplaceAll(s[1..], pattern, repl);
        { ReplaceAllPrefix(pre[1..], t, pattern, repl); }
        [pre[0]] + (pre[1..] + ReplaceAll(t, pattern, repl));
        { assert pre == [pre[0]] + pre[1..]; Assoc([pre[0]], pre[1..], ReplaceAll(t, pattern, repl)); }
        pre + ReplaceAll(t, pattern, repl);
      }
    } else {
      assert pre + t == t;
    }
  }

  /** Pass 1 leaves a text without backticks unchanged. */
  lemma RewriteAliasedNoTick(s: string, name: string, sql: string)
    requires QuotedName(name) && '`' !in s
    ensures RewriteAliased(s, name, sql) == s
  {
    RewriteAliasedPrefix(s, "", name, sql);
    assert s + "" == s;
  }

  /** Pass 2 leaves a text without backticks unchanged. */
  lemma ReplaceAllNoTick(s: string, pattern: string, repl: string)
    requires QuotedName(pattern) && '`' !in s
    ensures ReplaceAll(s, pattern, repl) == s
  {
    ReplaceAllPrefix(s, "", pattern, repl);
    assert s + "" == s;
  }

  /** A text that mentions no quoted table leaves `Replace` nothing to do. */
  lemma ReplaceNoReference(sql: string, r: Replacement)
    requires QuotedName(r.tableFullName) && '`' !in sql
    ensures Replace(sql, r) == sql
  {
    RewriteAliasedNoTick(sql, r.tableFullName, r.replaceSql);
    ReplaceAllNoTick(sql, r.tableFullName, "(" + r.replaceSql + ") AS " + r.tableShortName);
  }

  /** Inside `name[1..] + post` no occurrence of `name` can start when `post`
      has no backtick: it would have to end on a backtick inside `post`. */
  lemma {:induction false} NoMatchInsideName(s: string, name: string, post: string, sql: string)
    requires QuotedName(name) && '`' !in post
    requires |s| <= |name| - 1 && s == name[|name| - |s|..]
    ensures RewriteAliased(s + post, name, sql) == s + post
    decreases |s|
  {
    var t := s + post;
    if |s| == 0 {
      assert t == post;
      RewriteAliasedNoTick(post, name, sql);
    } else {
      assert t[1..] == s[1..] + post;
      NoMatchInsideName(s[1..], name, post, sql);
    }
  }

  // ----- The two behaviours the source promises -----

  /** A bare reference, not followed by an alias clause, becomes
      `(<ReplaceSql>) AS <TableShortName>`. */
  lemma BareReferenceGetsShortName(pre: string, post: string, r: Replacement)
    requires QuotedName(r.tableFullName)
    requires '`' !in pre && '`' !in post
    requires AliasClause(post).None?
    ensures Replace(pre + r.tableFullName + post, r)
         == pre + "(" + r.replaceSql + ") AS " + r.tableShortName + post
  {
    var name, sql := r.tableFullName, r.replaceSql;
    var repl := "(" + sql + ") AS " + r.tableShortName;
    var s := pre + name + post;
    var out := pre + repl + post;
    BarePasses(pre, post, r);
    assert out == pre + "(" + sql + ") AS " + r.tableShortName + post;
  }

  lemma BarePasses(pre: string, post: string, r: Replacement)
    requires QuotedName(r.tableFullName)
    requires '`' !in pre && '`' !in post
    requires AliasClause(post).None?
    ensures Replace(pre + r.tableFullName + post, r)
         == pre + ("(" + r.replaceSql + ") AS " + r.tableShortName) + post
  {
    var repl := "(" + r.replaceSql + ") AS " + r.tableShortName;
    var s := pre + r.tableFullName + post;
    BarePass1(pre, post, r.tableFullName, r.replaceSql);
    BarePass2(pre, post, r.tableFullName, repl);
    ReplaceByPasses(s, r, s, pre + repl + post);
  }

  /** `Replace` of a nonzero replacement, given what each of its passes yields. */
  lemma ReplaceByPasses(s: string, r: Replacement, aliased: string, out: string)
    requires QuotedName(r.tableFullName)
    requires RewriteAliased(s, r.tableFullName, r.replaceSql) == aliased
    requires ReplaceAll(aliased, r.tableFullName, "(" + r.replaceSql + ") AS " + r.tableShortName) == out
    ensures Replace(s, r) == out
  {
    assert r != ZeroReplacement by { assert |r.tableFullName| >= 2; }
  }

  lemma BarePass1(pre: string, post: string, name: string, sql: string)
    requires QuotedName(name)
    requires '`' !in pre && '`' !in post
    requires AliasClause(post).None?
    ensures RewriteAliased(pre + name + post, name, sql) == pre + name + post
  {
    Assoc(pre, name, post);
    BareReferenceKept(name, post, sql);
    RewriteAliasedPrefix(pre, name + post, name, sql);
  }


  lemma BareReferenceKept(name: string, post: string, sql: string)
    requires QuotedName(name) && '`' !in post && AliasClause(post).None?
    ensures RewriteAliased(name + post, name, sql) == name + post
  {
    var rest := name + post;
    assert rest[..|name|] == name && rest[|name|..] == post;
    assert AliasedReference(rest, name).None?;
    assert rest[1..] == name[1..] + post;
    NoMatchInsideName(name[1..], name, post, sql);
    assert rest == [rest[0]] + rest[1..];
  }

  lemma BarePass2(pre: string, post: string, name: string, repl: string)
    requires QuotedName(name)
    requires '`' !in pre && '`' !in post
    ensures ReplaceAll(pre + name + post, name, repl) == pre + repl + post
  {
    var rest := name + post;
    assert pre + name + post == pre + rest;
    ReplaceAllPrefix(pre, rest, name, repl);
    assert name <= rest && rest[|name|..] == post;
    ReplaceAllNoTick(post, name, repl);
  }

  /** A reference followed by `<space>as<space><alias><space>` (any case) keeps
      that alias: it becomes `(<ReplaceSql>) AS <alias> ` and no second alias
      is added, provided the inserted SQL and the alias mention no quoted table. */
  lemma AliasedReferenceKeepsAlias(pre: string, reference: string, w1: char, asWord: string,
                                    w2: char, alias: string, w3: char, post: string, r: Replacement)
    requires QuotedName(r.tableFullName) && CaseEq(reference, r.tableFullName)
    requires IsSpace(w1) && IsSpace(w2) && IsSpace(w3)
    requires |asWord| == 2 && Lower(asWord[0]) == 'a' && Lower(asWord[1]) == 's'
    requires |alias| > 0 && forall i :: 0 <= i < |alias| ==> IsAliasChar(alias[i])
    requires '`' !in pre && '`' !in post && '`' !in alias && '`' !in r.replaceSql
    ensures Replace(pre + reference + [w1] + asWord + [w2] + alias + [w3] + post, r)
         == pre + "(" + r.replaceSql + ") AS " + alias + " " + post
  {
    var name, sql := r.tableFullName, r.replaceSql;
    var repl := "(" + sql + ") AS " + r.tableShortName;
    var s := pre + reference + [w1] + asWord + [w2] + alias + [w3] + post;
    var out := pre + "(" + sql + ") AS " + alias + " " + post;
    assert r != ZeroReplacement;
    assert RewriteAliased(s, name, sql) == out by {
      AliasedPass1(pre, reference, w1, asWord, w2, alias, w3, post, name, sql);
    }
    assert ReplaceAll(out, name, repl) == out by {
      assert '`' !in out;
      ReplaceAllNoTick(out, name, repl);
    }
  }

  lemma AliasedPass1(pre: string, reference: string, w1: char, asWord: string,
                     w2: char, alias: string, w3: char, post: string, name: string, sql: string)
    requires QuotedName(name) && CaseEq(reference, name)
    requires IsSpace(w1) && IsSpace(w2) && IsSpace(w3)
    requires |asWord| == 2 && Lower(asWord[0]) == 'a' && Lower(asWord[1]) == 's'
    requires |alias| > 0 && forall i :: 0 <= i < |alias| ==> IsAliasChar(alias[i])
    requires '`' !in pre && '`' !in post
    ensures RewriteAliased(pre + reference + [w1] + asWord + [w2] + alias + [w3] + post, name, sql)
         == pre + "(" + sql + ") AS " + alias + " " + post
  {
    var s := pre + reference + [w1] + asWord + [w2] + alias + [w3] + post;
    var matched := "(" + sql + ") AS " + alias + " ";
    assert pre + matched + post == pre + "(" + sql + ") AS " + alias + " " + post;
    forall i | 0 <= i < |pre| ensures AliasedReference(s[i..], name).None? {
      assert s[i..][0] == pre[i];
      NoMatchWithoutTick(s[i..], name);
    }
    AliasedSkipPass1(pre, reference, w1, asWord, w2, alias, w3, post, name, sql);
    RewriteAliasedNoTick(post, name, sql);
  }

  /** Pass 1 on a reference whose alias clause matches: the match is rewritten
      and the text after it is rewritten on its own. */
  lemma RewriteMatchedReference(reference: string, clause: string, alias: string, post: string,
                                name: string, sql: string)
    requires QuotedName(name) && CaseEq(reference, name)
    requires AliasClause(clause) == Some(Match(alias, |alias| + 5))
    requires clause[|alias| + 5..] == post
    ensures RewriteAliased(reference + clause, name, sql)
         == "(" + sql + ") AS " + alias + " " + RewriteAliased(post, name, sql)
  {
    var rest := reference + clause;
    assert rest[..|name|] == reference && rest[|name|..] == clause;
    assert AliasedReference(rest, name) == Some(Match(alias, |name| + |alias| + 5));
    assert rest[|name| + |alias| + 5..] == post;
  }

  lemma ClauseMatch(w1: char, asWord: string, w2: char, alias: string, w3: char, post: string)
    requires IsSpace(w1) && IsSpace(w2) && IsSpace(w3)
    requires |asWord| == 2 && Lower(asWord[0]) == 'a' && Lower(asWord[1]) == 's'
    requires |alias| > 0 && forall i :: 0 <= i < |alias| ==> IsAliasChar(alias[i])
    ensures AliasClause([w1] + asWord + [w2] + alias + [w3] + post) == Some(Match(alias, |alias| + 5))
    ensures ([w1] + asWord + [w2] + alias + [w3] + post)[|alias| + 5..] == post
  {
    var clause := [w1] + asWord + [w2] + alias + [w3] + post;
    var tail := alias + [w3] + post;
    assert clause == [w1] + asWord + [w2] + tail;
    assert clause[4..] == tail;
    assert AliasLength(tail) == |alias| by {
      AliasLengthExact(alias, w3, post);
    }
    assert tail[..|alias|] == alias;
    assert clause[4..4 + |alias|] == alias;
  }

  lemma {:induction false} AliasLengthExact(alias: string, w: char, post: string)
    requires forall i :: 0 <= i < |alias| ==> IsAliasChar(alias[i])
    requires IsSpace(w)
    ensures AliasLength(alias + [w] + post) == |alias|
  {
    if |alias| > 0 {
      assert (alias + [w] + post)[1..] == alias[1..] + [w] + post;
      AliasLengthExact(alias[1..], w, post);
    }
  }

  // ----- References among other text -----

  /** Pass 1 copies the text up to `k` when no aliased reference starts before `k`. */
  lemma RewriteAliasedSkip(s: string, k: nat, name: string, sql: string)
    requires k <= |s|
    requires forall i :: 0 <= i < k ==> AliasedReference(s[i..], name).None?
    ensures RewriteAliased(s, name, sql) == s[..k] + RewriteAliased(s[k..], name, sql)
  {
    RewriteAliasedFrom(s, 0, k, name, sql);
    assert s[0..] == s && s[0..k] == s[..k];
  }

  lemma {:induction false} RewriteAliasedFrom(s: string, j: nat, k: nat, name: string, sql: string)
    requires j <= k <= |s|
    requires forall i :: j <= i < k ==> AliasedReference(s[i..], name).None?
    ensures RewriteAliased(s[j..], name, sql) == s[j..k] + RewriteAliased(s[k..], name, sql)
    decreases k - j
  {
    if j < k {
      RewriteAliasedStep(s, j, name, sql);
      RewriteAliasedFrom(s, j + 1, k, name, sql);
      assert s[j..k] == [s[j]] + s[j + 1..k];
      Assoc([s[j]], s[j + 1..k], RewriteAliased(s[k..], name, sql));
    }
  }

  lemma RewriteAliasedStep(s: string, j: nat, name: string, sql: string)
    requires j < |s| && AliasedReference(s[j..], name).None?
    ensures RewriteAliased(s[j..], name, sql) == [s[j]] + RewriteAliased(s[j + 1..], name, sql)
  {
    assert s[j..][1..] == s[j + 1..];
  }

  /** Pass 2 copies the text up to `k` when the pattern starts nowhere before `k`. */
  lemma ReplaceAllSkip(s: string, k: nat, pattern: string, repl: string)
    requires |pattern| > 0 && k <= |s|
    requires forall i :: 0 <= i < k ==> !(pattern <= s[i..])
    ensures ReplaceAll(s, pattern, repl) == s[..k] + ReplaceAll(s[k..], pattern, repl)
  {
    ReplaceAllFrom(s, 0, k, pattern, repl);
    assert s[0..] == s && s[0..k] == s[..k];
  }

  lemma {:induction false} ReplaceAllFrom(s: string, j: nat, k: nat, pattern: string, repl: string)
    requires |pattern| > 0 && j <= k <= |s|
    requires forall i :: j <= i < k ==> !(pattern <= s[i..])
    ensures ReplaceAll(s[j..], pattern, repl) == s[j..k] + ReplaceAll(s[k..], pattern, repl)
    decreases k - j
  {
    if j < k {
      ReplaceAllStep(s, j, pattern, repl);
      ReplaceAllFrom(s, j + 1, k, pattern, repl);
      assert s[j..k] == [s[j]] + s[j + 1..k];
      Assoc([s[j]], s[j + 1..k], ReplaceAll(s[k..], pattern, repl));
    }
  }

  lemma ReplaceAllStep(s: string, j: nat, pattern: string, repl: string)
    requires |pattern| > 0 && j < |s| && !(pattern <= s[j..])
    ensures ReplaceAll(s[j..], pattern, repl) == [s[j]] + ReplaceAll(s[j + 1..], pattern, repl)
  {
    assert s[j..][1..] == s[j + 1..];
  }

  /** A bare reference is replaced by `(<ReplaceSql>) AS <TableShortName>`
      whatever else the text names: the text before it is copied and the text
      after it is rewritten on its own. It suffices that no aliased reference
      starts before `post`, and that the name does not occur in `pre` or across
      the border between `pre` and the reference. */
  lemma ReferenceReplaced(pre: string, post: string, r: Replacement)
    requires QuotedName(r.tableFullName)
    requires forall i :: 0 <= i < |pre| + |r.tableFullName| ==>
               AliasedReference((pre + r.tableFullName + post)[i..], r.tableFullName).None?
    requires forall i :: 0 <= i < |pre| ==> !(r.tableFullName <= (pre + r.tableFullName)[i..])
    ensures Replace(pre + r.tableFullName + post, r)
         == pre + "(" + r.replaceSql + ") AS " + r.tableShortName + Replace(post, r)
  {
    var name, sql := r.tableFullName, r.replaceSql;
    var repl := "(" + sql + ") AS " + r.tableShortName;
    var a := RewriteAliased(post, name, sql);
    var rest := ReplaceAll(a, name, repl);
    var out := pre + (repl + rest);
    assert out == pre + "(" + sql + ") AS " + r.tableShortName + rest;
    BareSkipPass1(pre, name, post, sql);
    BareSkipPass2(pre, name, a, repl);
    ReplaceByPasses(pre + name + post, r, pre + name + a, out);
    ReplaceByPasses(post, r, a, rest);
  }

  lemma BareSkipPass1(pre: string, name: string, post: string, sql: string)
    requires forall i :: 0 <= i < |pre| + |name| ==> AliasedReference((pre + name + post)[i..], name).None?
    ensures RewriteAliased(pre + name + post, name, sql) == pre + name + RewriteAliased(post, name, sql)
  {
    var s := pre + name + post;
    RewriteAliasedSkip(s, |pre| + |name|, name, sql);
    assert s[..|pre| + |name|] == pre + name && s[|pre| + |name|..] == post;
  }

  lemma BareSkipPass2(pre: string, name: string, a: string, repl: string)
    requires |name| > 0
    requires forall i :: 0 <= i < |pre| ==> !(name <= (pre + name)[i..])
    ensures ReplaceAll(pre + name + a, name, repl) == pre + (repl + ReplaceAll(a, name, repl))
  {
    var t := pre + name + a;
    forall i | 0 <= i < |pre| ensures !(name <= t[i..]) {
      assert t[i..][..|name|] == (pre + name)[i..][..|name|];
    }
    ReplaceAllSkip(t, |pre|, name, repl);
    assert t[..|pre|] == pre && t[|pre|..] == name + a;
    assert (name + a)[|name|..] == a;
  }

  /** A reference with an alias clause keeps its alias whatever else the text
      names: the match becomes `(<ReplaceSql>) AS <alias> `, the text before it
      is copied and the text after it is rewritten on its own. It suffices that
      no aliased reference starts in `pre`, that the name holds no space, and
      that it does not occur in the text that pass 1 writes before `post`. */
  lemma AliasedReferenceReplaced(pre: string, reference: string, w1: char, asWord: string,
                                 w2: char, alias: string, w3: char, post: string, r: Replacement)
    requires QuotedName(r.tableFullName) && CaseEq(reference, r.tableFullName) && ' ' !in r.tableFullName
    requires IsSpace(w1) && IsSpace(w2) && IsSpace(w3)
    requires |asWord| == 2 && Lower(asWord[0]) == 'a' && Lower(asWord[1]) == 's'
    requires |alias| > 0 && forall i :: 0 <= i < |alias| ==> IsAliasChar(alias[i])
    requires forall i :: 0 <= i < |pre| ==>
               AliasedReference((pre + reference + [w1] + asWord + [w2] + alias + [w3] + post)[i..], r.tableFullName).None?
    requires forall i :: 0 <= i < |pre + ("(" + r.replaceSql + ") AS " + alias + " ")| ==>
               !(r.tableFullName <= (pre + ("(" + r.replaceSql + ") AS " + alias + " "))[i..])
    ensures Replace(pre + reference + [w1] + asWord + [w2] + alias + [w3] + post, r)
         == pre + ("(" + r.replaceSql + ") AS " + alias + " ") + Replace(post, r)
  {
    var name, sql := r.tableFullName, r.replaceSql;
    var repl := "(" + sql + ") AS " + r.tableShortName;
    var head := pre + ("(" + sql + ") AS " + alias + " ");
    var a := RewriteAliased(post, name, sql);
    var rest := ReplaceAll(a, name, repl);
    AliasedSkipPass1(pre, reference, w1, asWord, w2, alias, w3, post, name, sql);
    AliasedSkipPass2(head, a, name, repl);
    ReplaceByPasses(pre + reference + [w1] + asWord + [w2] + alias + [w3] + post, r, head + a, head + rest);
    ReplaceByPasses(post, r, a, rest);
  }

  lemma AliasedSkipPass1(pre: string, reference: string, w1: char, asWord: string,
                         w2: char, alias: string, w3: char, post: string, name: string, sql: string)
    requires QuotedName(name) && CaseEq(reference, name)
    requires IsSpace(w1) && IsSpace(w2) && IsSpace(w3)
    requires |asWord| == 2 && Lower(asWord[0]) == 'a' && Lower(asWord[1]) == 's'
    requires |alias| > 0 && forall i :: 0 <= i < |alias| ==> IsAliasChar(alias[i])
    requires forall i :: 0 <= i < |pre| ==>
               AliasedReference((pre + reference + [w1] + asWord + [w2] + alias + [w3] + post)[i..], name).None?
    ensures RewriteAliased(pre + reference + [w1] + asWord + [w2] + alias + [w3] + post, name, sql)
         == pre + ("(" + sql + ") AS " + alias + " ") + RewriteAliased(post, name, sql)
  {
    var clause := [w1] + asWord + [w2] + alias + [w3] + post;
    var t := reference + clause;
    RegroupClause(pre, reference, w1, asWord, w2, alias, w3, post);
    assert RewriteAliased(t, name, sql)
        == ("(" + sql + ") AS " + alias + " ") + RewriteAliased(post, name, sql) by {
      ClauseMatch(w1, asWord, w2, alias, w3, post);
      RewriteMatchedReference(reference, clause, alias, post, name, sql);
    }
    SkipPrefixPass1(pre, t, name, sql);
  }

  lemma RegroupClause(pre: string, reference: string, w1: char, asWord: string,
                      w2: char, alias: string, w3: char, post: string)
    ensures pre + reference + [w1] + asWord + [w2] + alias + [w3] + post
         == pre + (reference + ([w1] + asWord + [w2] + alias + [w3] + post))
  {
    var p := pre + reference;
    Assoc(p, [w1], asWord);
    Assoc(p, [w1] + asWord, [w2]);
    Assoc(p, [w1] + asWord + [w2], alias);
    Assoc(p, [w1] + asWord + [w2] + alias, [w3]);
    Assoc(p, [w1] + asWord + [w2] + alias + [w3], post);
    Assoc(pre, reference, [w1] + asWord + [w2] + alias + [w3] + post);
  }

  lemma SkipPrefixPass1(pre: string, t: string, name: string, sql: string)
    requires forall i :: 0 <= i < |pre| ==> AliasedReference((pre + t)[i..], name).None?
    ensures RewriteAliased(pre + t, name, sql) == pre + RewriteAliased(t, name, sql)
  {
    RewriteAliasedSkip(pre + t, |pre|, name, sql);
    assert (pre + t)[..|pre|] == pre && (pre + t)[|pre|..] == t;
  }

  lemma AliasedSkipPass2(head: string, a: string, name: string, repl: string)
    requires |name| > 0 && ' ' !in name && |head| > 0 && head[|head| - 1] == ' '
    requires forall i :: 0 <= i < |head| ==> !(name <= head[i..])
    ensures ReplaceAll(head + a, name, repl) == head + ReplaceAll(a, name, repl)
  {
    var t := head + a;
    forall i | 0 <= i < |head| ensures !(name <= t[i..]) {
      if i + |name| <= |head| {
        assert t[i..][..|name|] == head[i..][..|name|];
      } else {
        assert t[i..][|head| - 1 - i] == ' ';
      }
    }
    ReplaceAllSkip(t, |head|, name, repl);
    assert t[..|head|] == head && t[|head|..] == a;
  }

  /** The text names the table, in any letter case, at position `i`. */
  predicate MentionsAt(s: string, name: string, i: int)
  {
    0 <= i <= |s| - |name| && CaseEq(s[i..i + |name|], name)
  }

  /** A text that never names the table, in any letter case, is left
      unchanged: references to every other table are kept as they are. */
  lemma OtherTablesKept(sql: string, r: Replacement)
    requires QuotedName(r.tableFullName)
    requires forall i :: !MentionsAt(sql, r.tableFullName, i)
    ensures Replace(sql, r) == sql
  {
    var name := r.tableFullName;
    var repl := "(" + r.replaceSql + ") AS " + r.tableShortName;
    forall i | 0 <= i < |sql| ensures AliasedReference(sql[i..], name).None? && !(name <= sql[i..]) {
      assert !MentionsAt(sql, name, i);
      if |name| <= |sql[i..]| {
        assert sql[i..][..|name|] == sql[i..i + |name|];
      }
    }
    RewriteAliasedSkip(sql, |sql|, name, r.replaceSql);
    ReplaceAllSkip(sql, |sql|, name, repl);
    assert sql[..|sql|] == sql && sql[|sql|..] == "";
    ReplaceByPasses(sql, r, sql, sql);
  }

  // ----- The two unit tests of `Replace`, and an alias at the end of the text -----

  lemma ReplaceWithoutPreviousAlias(sql: string, r: Replacement)
    requires sql == "from `one`.`two`.`three` do something"
    requires r == Replacement("`one`.`two`.`three`", "select * from x", "new_table_name")
    ensures Replace(sql, r) == "from (select * from x) AS new_table_name do something"
  {
    BareInputText();
    BareInputParts();
    BareReferenceGetsShortName("from ", " do something", r);
    BareExpectedText();
  }

  lemma BareInputParts()
    ensures QuotedName("`one`.`two`.`three`") && '`' !in "from " && '`' !in " do something"
    ensures AliasClause(" do something").None?
  {
    assert " do something"[1] == 'd';
  }

  lemma ReplaceWithPreviousAlias(sql: string, r: Replacement)
    requires sql == "from `one`.`two`.`three` AS ALIAS1 do something"
    requires r == Replacement("`one`.`two`.`three`", "select * from x", "new_table_name")
    ensures Replace(sql, r) == "from (select * from x) AS ALIAS1 do something"
  {
    AliasedInputText();
    AliasedInputParts();
    AliasedReferenceKeepsAlias("from ", r.tableFullName, ' ', "AS", ' ', "ALIAS1", ' ', "do something", r);
    AliasedExpectedText();
  }

  lemma AliasedInputParts()
    ensures QuotedName("`one`.`two`.`three`") && CaseEq("`one`.`two`.`three`", "`one`.`two`.`three`")
    ensures IsSpace(' ') && |"AS"| == 2 && Lower("AS"[0]) == 'a' && Lower("AS"[1]) == 's'
    ensures |"ALIAS1"| > 0 && forall i :: 0 <= i < |"ALIAS1"| ==> IsAliasChar("ALIAS1"[i])
    ensures '`' !in "from " && '`' !in "do something" && '`' !in "ALIAS1" && '`' !in "select * from x"
  {
  }

  lemma BareInputText()
    ensures "from " + "`one`.`two`.`three`" + " do something" == "from `one`.`two`.`three` do something"
  {
    assert "from " + "`one`.`two`.`three`" == "from `one`.`two`.`three`";
  }

  lemma AliasedInputText()
    ensures "from " + "`one`.`two`.`three`" + [' '] + "AS" + [' '] + "ALIAS1" + [' '] + "do something"
         == "from `one`.`two`.`three` AS ALIAS1 do something"
  {
    assert "from " + "`one`.`two`.`three`" == "from `one`.`two`.`three`";
    assert "from `one`.`two`.`three`" + [' '] == "from `one`.`two`.`three` ";
    assert "from `one`.`two`.`three` " + "AS" == "from `one`.`two`.`three` AS";
    assert "from `one`.`two`.`three` AS" + [' '] == "from `one`.`two`.`three` AS ";
    assert "from `one`.`two`.`three` AS " + "ALIAS1" == "from `one`.`two`.`three` AS ALIAS1";
    assert "from `one`.`two`.`three` AS ALIAS1" + [' '] == "from `one`.`two`.`three` AS ALIAS1 ";
  }

  lemma BareExpectedText()
    ensures "from " + "(" + "select * from x" + ") AS " + "new_table_name" + " do something"
         == "from (select * from x) AS new_table_name do something"
  {
    assert "from " + "(" == "from (";
    assert "from (" + "select * from x" == "from (select * from x";
    assert "from (select * from x" + ") AS " == "from (select * from x) AS ";
    assert "from (select * from x) AS " + "new_table_name" == "from (select * from x) AS new_table_name";
  }

  lemma AliasedExpectedText()
    ensures "from " + "(" + "select * from x" + ") AS " + "ALIAS1" + " " + "do something"
         == "from (select * from x) AS ALIAS1 do something"
  {
    assert "from " + "(" == "from (";
    assert "from (" + "select * from x" == "from (select * from x";
    assert "from (select * from x" + ") AS " == "from (select * from x) AS ";
    assert "from (select * from x) AS " + "ALIAS1" == "from (select * from x) AS ALIAS1";
    assert "from (select * from x) AS ALIAS1" + " " == "from (select * from x) AS ALIAS1 ";
  }

  /** The alias clause must end in whitespace: an alias that ends the text is
      not recognised, so the reference gets the short name as a second alias. */
  lemma AliasAtEndIsDoubled(code: string, r: Replacement)
    requires code == "SELECT * FROM `p`.`d`.`s1` AS x"
    requires r.tableFullName == "`p`.`d`.`s1`" && r.tableShortName == "s1"
    ensures Replace(code, r) == "SELECT * FROM (" + r.replaceSql + ") AS s1 AS x"
  {
    DoubledParts();
    BareReferenceGetsShortName("SELECT * FROM ", " AS x", r);
    DoubledShape(r.replaceSql);
  }

  lemma DoubledParts()
    ensures "SELECT * FROM " + "`p`.`d`.`s1`" + " AS x" == "SELECT * FROM `p`.`d`.`s1` AS x"
    ensures QuotedName("`p`.`d`.`s1`") && '`' !in "SELECT * FROM " && '`' !in " AS x"
    ensures AliasClause(" AS x").None?
  {
    assert "SELECT * FROM " + "`p`.`d`.`s1`" == "SELECT * FROM `p`.`d`.`s1`";
    assert AliasLength(" AS x"[4..]) == 1;
  }

  lemma DoubledShape(sql: string)
    ensures "SELECT * FROM " + "(" + sql + ") AS " + "s1" + " AS x" == "SELECT * FROM (" + sql + ") AS s1 AS x"
  {
    assert "SELECT * FROM " + "(" == "SELECT * FROM (";
    assert ") AS " + "s1" + " AS x" == ") AS s1 AS x";
  }
}
