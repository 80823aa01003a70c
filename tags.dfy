/**
 * The tag subsystem: a (category, name) Tag, the per-cycle tag cache kept
 * by the tag collector (tag id -> Tag, object reference -> its Tags), the
 * user's filter expression and the matching and grouping queries built on
 * that state. The collector's own implementation file is not part of this
 * model; its behaviour is the one its unit tests pin down.
 */
module Tags {
  import opened ManagedObjects
  import opened Text

  type TagId = string

  datatype Tag = Tag(category: string, name: string)

  /** Object reference -> the Tags attached to it, in the order the tagging service listed them. */
  type TagIndex = map<Mor, seq<Tag>>

  /** The Tag an unknown id resolves to. */
  const EmptyTag := Tag("", "")

  // ---------------------------------------------------------------------
  // Filter expressions: whitespace-separated `category=name` terms.
  // ---------------------------------------------------------------------

  /** The textual form of one filter term. */
  function Token(t: Tag): string {
    t.category + "=" + t.name
  }

  /** A term that can be written in a filter expression and read back unchanged. */
  predicate Writable(t: Tag) {
    '=' !in t.category && '=' !in t.name && NoSpace(t.category) && NoSpace(t.name)
  }

  /** The position of the first '=' in `s`, or |s| when there is none. */
  function EqIndex(s: string): (i: nat)
    ensures i <= |s| && '=' !in s[..i]
    ensures i < |s| ==> s[i] == '='
  {
    if s == [] || s[0] == '=' then 0
    else
      var i := 1 + EqIndex(s[1..]);
      assert s[..i] == [s[0]] + s[1..][..i - 1];
      i
  }

  /** A string splits around each of its positions. */
  lemma SplitAt(s: string, i: nat)
    requires i < |s|
    ensures s == s[..i] + [s[i]] + s[i + 1..]
    ensures multiset(s) == multiset(s[..i]) + multiset{s[i]} + multiset(s[i + 1..])
  {
    assert s == s[..i] + [s[i]] + s[i + 1..];
  }

  /**
   * One token of a filter expression: a term when the token holds exactly
   * one '=' (splitting on '=' gives two parts), nothing otherwise.
   */
  function Term(token: string): (t: Option<Tag>)
    ensures t.Some? ==> Token(t.value) == token && '=' !in t.value.category && '=' !in t.value.name
  {
    var i := EqIndex(token);
    if i == |token| then None
    else
      var category, rest := token[..i], token[i + 1..];
      assert token == category + "=" + rest;
      if '=' in rest then None else Some(Tag(category, rest))
  }

  /** A token denotes a term exactly when it holds a single '='. */
  lemma TermDefined(token: string)
    ensures Term(token).Some? <==> multiset(token)['='] == 1
  {
    var i := EqIndex(token);
    if i == |token| {
      assert token[..i] == token;
    } else {
      SplitAt(token, i);
      var category, rest := token[..i], token[i + 1..];
      assert multiset(token)['='] == multiset(category)['='] + 1 + multiset(rest)['='];
      assert multiset(category)['='] == 0;
      if '=' in rest {
        assert multiset(rest)['='] > 0;
      } else {
        assert multiset(rest)['='] == 0;
      }
    }
  }

  /** The terms of a token sequence, in order, malformed tokens dropped. */
  function Terms(tokens: seq<string>): seq<Tag> {
    if tokens == [] then []
    else
      var n := |tokens| - 1;
      var init := Terms(tokens[..n]);
      match Term(tokens[n])
      case None => init
      case Some(t) => init + [t]
  }

  /** Every term comes from one of the tokens and holds no '=' in either part. */
  lemma {:induction false} TermsSound(tokens: seq<string>)
    ensures forall t :: t in Terms(tokens) ==> Token(t) in tokens && '=' !in t.category && '=' !in t.name
  {
    if tokens != [] {
      var n := |tokens| - 1;
      var init := Terms(tokens[..n]);
      TermsSound(tokens[..n]);
      TermsLast(tokens);
      forall t | t in Terms(tokens) ensures Token(t) in tokens && '=' !in t.category && '=' !in t.name {
        if t in init {
          var k :| 0 <= k < n && tokens[..n][k] == Token(t);
          assert tokens[k] == Token(t);
        } else {
          assert Term(tokens[n]) == Some(t);
        }
      }
    }
  }

  /** Every well-formed token contributes its term. */
  lemma {:induction false} TermsComplete(tokens: seq<string>, k: nat)
    requires k < |tokens| && multiset(tokens[k])['='] == 1
    ensures Term(tokens[k]).Some? && Term(tokens[k]).value in Terms(tokens)
  {
    var n := |tokens| - 1;
    TermDefined(tokens[k]);
    var init, v := Terms(tokens[..n]), Term(tokens[k]).value;
    TermsLast(tokens);
    if k < n {
      assert tokens[..n][k] == tokens[k];
      TermsComplete(tokens[..n], k);
      var i :| 0 <= i < |init| && init[i] == v;
      assert Terms(tokens)[i] == v;
    } else {
      assert k == n;
      var term := Term(tokens[n]);
      assert term.Some? && term.value == v;
      assert Terms(tokens) == init + [v];
      assert Terms(tokens)[|init|] == v;
    }
  }

  lemma TermsLast(tokens: seq<string>)
    requires tokens != []
    ensures var n := |tokens| - 1;
      Terms(tokens) == Terms(tokens[..n]) + (if Term(tokens[n]).Some? then [Term(tokens[n]).value] else [])
  {
  }

  /** The filter an expression denotes. */
  function ParseFilter(expr: string): seq<Tag> {
    Terms(Fields(expr))
  }

  /** A term whose token holds no white space can be written back. */
  lemma WritableToken(t: Tag)
    requires NoSpace(Token(t)) && '=' !in t.category && '=' !in t.name
    ensures Writable(t)
  {
    assert t.category == Token(t)[..|t.category|];
    assert t.name == Token(t)[|t.category| + 1..];
  }

  /** Every term of a parsed filter is one field of the expression and can be written back. */
  lemma ParsedTermsWritable(expr: string)
    ensures forall t :: t in ParseFilter(expr) ==> Writable(t) && Token(t) in Fields(expr)
  {
    var fs := Fields(expr);
    TermsSound(fs);
    forall t | t in ParseFilter(expr) ensures Writable(t) {
      var k :| 0 <= k < |fs| && fs[k] == Token(t);
      WritableToken(t);
    }
  }

  /** Every field of the expression that holds exactly one '=' yields a term of the filter. */
  lemma ParseFilterComplete(expr: string)
    ensures forall k :: 0 <= k < |Fields(expr)| && multiset(Fields(expr)[k])['='] == 1 ==>
      Term(Fields(expr)[k]).Some? && Term(Fields(expr)[k]).value in ParseFilter(expr)
  {
    var fs := Fields(expr);
    forall k | 0 <= k < |fs| && multiset(fs[k])['='] == 1
      ensures Term(fs[k]).Some? && Term(fs[k]).value in ParseFilter(expr)
    {
      TermsComplete(fs, k);
    }
  }

  lemma {:induction false} TermsAppend(a: seq<string>, b: seq<string>)
    ensures Terms(a + b) == Terms(a) + Terms(b)
    decreases |b|
  {
    if b == [] {
      assert a + b == a;
      assert Terms(a) + [] == Terms(a);
    } else {
      var n := |b| - 1;
      var init, last := b[..n], b[n];
      var extra := if Term(last).Some? then [Term(last).value] else [];
      assert b == init + [last] && b[..n] == init && b[n] == last;
      assert (a + b)[..|a + b| - 1] == a + init && (a + b)[|a + b| - 1] == last;
      TermsAppend(a, init);
      calc {
        Terms(a + b);
      == { TermsLast(a + b); }
        Terms(a + init) + extra;
      ==
        (Terms(a) + Terms(init)) + extra;
      ==
        Terms(a) + (Terms(init) + extra);
      == { TermsLast(b); }
        Terms(a) + Terms(b);
      }
    }
  }

  lemma {:induction false} EqIndexAt(s: string, i: nat)
    requires i < |s| && s[i] == '=' && '=' !in s[..i]
    ensures EqIndex(s) == i
  {
    if i > 0 {
      assert s[0] in s[..i];
      assert s[1..][..i - 1] == s[1..i];
      assert forall c :: c in s[1..i] ==> c in s[..i];
      EqIndexAt(s[1..], i - 1);
    }
  }

  /** A term whose parts hold no '=' is read back from its token. */
  lemma TermOfToken(t: Tag)
    requires '=' !in t.category && '=' !in t.name
    ensures Term(Token(t)) == Some(t)
  {
    var s := Token(t);
    var i := |t.category|;
    assert s[..i] == t.category && s[i] == '=' && s[i + 1..] == t.name;
    EqIndexAt(s, i);
  }

  /** The expression that lists `ts` separated by single spaces. */
  function Render(ts: seq<Tag>): string {
    if ts == [] then ""
    else if |ts| == 1 then Token(ts[0])
    else Render(ts[..|ts| - 1]) + " " + Token(ts[|ts| - 1])
  }

  lemma {:induction false} FieldsOfToken(t: Tag)
    requires Writable(t)
    ensures Fields(Token(t)) == [Token(t)]
  {
    assert NoSpace(Token(t)) by {
      assert forall k :: 0 <= k < |Token(t)| ==> Token(t)[k] == (if k < |t.category| then t.category[k] else if k == |t.category| then '=' else t.name[k - |t.category| - 1]);
    }
    FieldsOfWord(Token(t));
  }

  lemma ParseToken(t: Tag)
    requires Writable(t)
    ensures ParseFilter(Token(t)) == [t]
  {
    FieldsOfToken(t);
    TermOfToken(t);
    assert [Token(t)][..0] == [];
    assert Terms([Token(t)]) == Terms([]) + [t];
  }

  lemma ParseAppendToken(prefix: string, t: Tag)
    requires Writable(t)
    ensures ParseFilter(prefix + " " + Token(t)) == ParseFilter(prefix) + [t]
  {
    FieldsSplitAtSpace(prefix, ' ', Token(t));
    assert prefix + " " + Token(t) == prefix + [' '] + Token(t);
    FieldsOfToken(t);
    TermsAppend(Fields(prefix), [Token(t)]);
    ParseToken(t);
  }

  lemma RenderStep(init: seq<Tag>, last: Tag)
    requires init != [] && Writable(last) && ParseFilter(Render(init)) == init
    ensures ParseFilter(Render(init + [last])) == init + [last]
  {
    var ts := init + [last];
    assert ts[..|ts| - 1] == init;
    assert Render(ts) == Render(init) + " " + Token(last);
    ParseAppendToken(Render(init), last);
  }

  /** Parsing the rendering of writable terms gives the terms back, in order. */
  lemma {:induction false} ParseRender(ts: seq<Tag>)
    requires forall i :: 0 <= i < |ts| ==> Writable(ts[i])
    ensures ParseFilter(Render(ts)) == ts
  {
    if |ts| == 1 {
      ParseToken(ts[0]);
    } else if |ts| > 1 {
      var n := |ts| - 1;
      assert ts == ts[..n] + [ts[n]];
      assert forall i :: 0 <= i < n ==> ts[..n][i] == ts[i];
      ParseRender(ts[..n]);
      RenderStep(ts[..n], ts[n]);
    }
  }

  /** A token without '=' yields no term. */
  lemma NoTermWithoutEq(w: string)
    requires '=' !in w
    ensures Terms([w]) == []
  {
    assert multiset(w)['='] == 0;
    TermDefined(w);
    assert [w][..0] == [];
  }

  /** Lower-case ASCII letters only. */
  predicate Letters(s: string) {
    forall k :: 0 <= k < |s| ==> 'a' <= s[k] <= 'z'
  }

  lemma LettersNoSpace(s: string)
    requires Letters(s)
    ensures NoSpace(s) && '=' !in s
  {
    forall k | 0 <= k < |s| ensures !IsSpace(s[k]) {
      assert 'a' <= s[k] <= 'z';
    }
  }

  /** A bare word of letters is one field and yields no term. */
  lemma BareWord(w: string)
    requires w != [] && Letters(w)
    ensures ParseFilter(w) == []
  {
    LettersNoSpace(w);
    FieldsOfWord(w);
    NoTermWithoutEq(w);
  }

  /** A term whose category and name are letters can be written back. */
  lemma LettersWritable(t: Tag)
    requires Letters(t.category) && Letters(t.name)
    ensures Writable(t)
  {
    LettersNoSpace(t.category);
    LettersNoSpace(t.name);
  }

  /** A token with a ':' in place of '=' denotes no term. */
  lemma ParseFilterWithoutEq()
    ensures ParseFilter("key:value") == []
  {
    var kv := "key:value";
    assert '=' !in kv;
    assert NoSpace(kv) by {
      forall k | 0 <= k < |kv| ensures !IsSpace(kv[k]) {
        assert kv[k] == ':' || 'a' <= kv[k] <= 'z';
      }
    }
    FieldsOfWord(kv);
    NoTermWithoutEq(kv);
  }

  /** A single space joins the terms of two expressions. */
  lemma ParseJoin(a: string, b: string)
    ensures ParseFilter(a + " " + b) == ParseFilter(a) + ParseFilter(b)
  {
    assert a + " " + b == a + [' '] + b;
    FieldsSplitAtSpace(a, ' ', b);
    TermsAppend(Fields(a), Fields(b));
  }

  /** Two bare words denote no term. */
  lemma ParseFilterBareWords()
    ensures ParseFilter("key value") == []
  {
    var key, value := "key", "value";
    assert "key value" == key + " " + value;
    assert Letters(key) && Letters(value);
    BareWord(key);
    BareWord(value);
    ParseJoin(key, value);
  }

  /** A `category=name` token of letters denotes that one term. */
  lemma ParseLetterTerm(category: string, name: string)
    requires Letters(category) && Letters(name)
    ensures ParseFilter(category + "=" + name) == [Tag(category, name)]
  {
    LettersWritable(Tag(category, name));
    ParseToken(Tag(category, name));
  }

  /** One well-formed token denotes one term. */
  lemma ParseFilterOneTerm()
    ensures ParseFilter("region=eu") == [Tag("region", "eu")]
  {
    var category, name := "region", "eu";
    assert "region=eu" == category + "=" + name;
    assert Letters(category) && Letters(name);
    ParseLetterTerm(category, name);
  }

  /** Two `category=name` tokens of letters, one space apart, denote those two terms in order. */
  lemma ParseTwoLetterTerms(c1: string, n1: string, c2: string, n2: string)
    requires Letters(c1) && Letters(n1) && Letters(c2) && Letters(n2)
    ensures ParseFilter((c1 + "=" + n1) + " " + (c2 + "=" + n2)) == [Tag(c1, n1), Tag(c2, n2)]
  {
    ParseJoin(c1 + "=" + n1, c2 + "=" + n2);
    ParseLetterTerm(c1, n1);
    ParseLetterTerm(c2, n2);
  }

  lemma TwoTermsSpelling()
    ensures "region=eu env=test" == ("region" + "=" + "eu") + " " + ("env" + "=" + "test")
  {
  }

  /** Two well-formed tokens denote two terms, in order. */
  lemma ParseFilterTwoTerms()
    ensures ParseFilter("region=eu env=test") == [Tag("region", "eu"), Tag("env", "test")]
  {
    assert Letters("region") && Letters("eu") && Letters("env") && Letters("test");
    ParseTwoLetterTerms("region", "eu", "env", "test");
    TwoTermsSpelling();
  }

  // ---------------------------------------------------------------------
  // Matching an object's tags against the filter.
  // ---------------------------------------------------------------------

  /** Whether at least one of `tags` equals some term of `filter`. */
  function Matches(filter: seq<Tag>, tags: seq<Tag>): (r: bool)
    ensures r <==> exists i, j :: 0 <= i < |tags| && 0 <= j < |filter| && tags[i] == filter[j]
  {
    if tags == [] then false
    else if tags[0] in filter then true
    else
      var r := Matches(filter, tags[1..]);
      assert r ==> exists i, j :: 0 <= i < |tags| && 0 <= j < |filter| && tags[i] == filter[j] by {
        if r {
          var i, j :| 0 <= i < |tags[1..]| && 0 <= j < |filter| && tags[1..][i] == filter[j];
          assert tags[i + 1] == filter[j];
        }
      }
      assert (exists i, j :: 0 <= i < |tags| && 0 <= j < |filter| && tags[i] == filter[j]) ==> r by {
        if exists i, j :: 0 <= i < |tags| && 0 <= j < |filter| && tags[i] == filter[j] {
          var i, j :| 0 <= i < |tags| && 0 <= j < |filter| && tags[i] == filter[j];
          assert i != 0;
          assert tags[1..][i - 1] == filter[j];
        }
      }
      r
  }

  /** One matching tag suffices: the terms of a filter are alternatives. */
  lemma {:induction false} AnyTermMatches(filter: seq<Tag>, tags: seq<Tag>, t: Tag)
    requires t in filter && t in tags
    ensures Matches(filter, tags)
  {
    var i :| 0 <= i < |tags| && tags[i] == t;
    var j :| 0 <= j < |filter| && filter[j] == t;
  }

  /** Under a two-term filter: no tags never match, a foreign tag alone does not, either term alone does. */
  lemma MatchTwoTermFilter(x: Tag, y: Tag, u: Tag, v: Tag)
    requires u != x && u != y && v != x && v != y
    ensures var filter := [x, y];
      && !Matches(filter, [])
      && !Matches(filter, [u])
      && !Matches(filter, [v])
      && Matches(filter, [x])
      && Matches(filter, [x, y])
  {
    AnyTermMatches([x, y], [x], x);
    AnyTermMatches([x, y], [x, y], x);
  }

  lemma MatchExampleTagsDiffer()
    ensures var eu, test := Tag("region", "eu"), Tag("env", "test");
      && Tag("non-existing", "eu") != eu && Tag("non-existing", "eu") != test
      && Tag("region", "asia") != eu && Tag("region", "asia") != test
  {
    assert |"non-existing"| != |"region"| && |"non-existing"| != |"env"|;
    assert |"asia"| != |"eu"| && |"region"| != |"env"|;
  }

  /** The cases of the matching test, under the filter `region=eu env=test`. */
  lemma MatchExamples()
    ensures var filter := ParseFilter("region=eu env=test");
      && !Matches(filter, [])
      && !Matches(filter, [Tag("non-existing", "eu")])
      && !Matches(filter, [Tag("region", "asia")])
      && Matches(filter, [Tag("region", "eu")])
      && Matches(filter, [Tag("region", "eu"), Tag("env", "test")])
  {
    ParseFilterTwoTerms();
    MatchExampleTagsDiffer();
    MatchTwoTermFilter(Tag("region", "eu"), Tag("env", "test"), Tag("non-existing", "eu"), Tag("region", "asia"));
  }

  /** The tags cached for `ref`, none when it has no entry. */
  function ObjectTags(cache: TagIndex, ref: Mor): seq<Tag> {
    if ref in cache then cache[ref] else []
  }

  // ---------------------------------------------------------------------
  // Grouping an object's tag names per category.
  // ---------------------------------------------------------------------

  /** The names of the tags in category `cat`, in listing order. */
  function NamesIn(tags: seq<Tag>, cat: string): seq<string> {
    if tags == [] then []
    else (if tags[0].category == cat then [tags[0].name] else []) + NamesIn(tags[1..], cat)
  }

  /** A name occurs in a category's list as often as the tag (category, name) is attached. */
  lemma {:induction false} NamesInCount(tags: seq<Tag>, cat: string)
    ensures forall n :: multiset(NamesIn(tags, cat))[n] == multiset(tags)[Tag(cat, n)]
  {
    if tags != [] {
      NamesInCount(tags[1..], cat);
      assert tags == [tags[0]] + tags[1..];
    }
  }

  function Categories(tags: seq<Tag>): set<string> {
    set t | t in tags :: t.category
  }

  /** Category -> its tag names, sorted and joined with '|'. */
  function ByCategory(tags: seq<Tag>): (r: map<string, string>)
    ensures forall c :: c in r <==> exists i :: 0 <= i < |tags| && tags[i].category == c
    ensures forall c, s :: c in r && Sorted(s) && multiset(s) == multiset(NamesIn(tags, c)) ==> r[c] == Join(s, "|")
  {
    var r := map c | c in Categories(tags) :: Join(Sort(NamesIn(tags, c)), "|");
    assert forall c, s :: c in r && Sorted(s) && multiset(s) == multiset(NamesIn(tags, c)) ==> r[c] == Join(s, "|") by {
      forall c, s | c in r && Sorted(s) && multiset(s) == multiset(NamesIn(tags, c))
        ensures r[c] == Join(s, "|")
      {
        SortedUnique(s, Sort(NamesIn(tags, c)));
      }
    }
    r
  }

  /**
   * The value of a category: its names sorted and joined with '|', each name
   * as often as the tag (category, name) is attached. Any sorted listing of
   * those names gives the same value.
   */
  lemma ByCategoryValue(tags: seq<Tag>, c: string, s: seq<string>)
    requires c in Categories(tags) && Sorted(s)
    requires forall n :: multiset(s)[n] == multiset(tags)[Tag(c, n)]
    ensures c in ByCategory(tags) && ByCategory(tags)[c] == Join(s, "|")
  {
    NamesInCount(tags, c);
    assert multiset(s) == multiset(NamesIn(tags, c));
    SortedUnique(s, Sort(NamesIn(tags, c)));
  }

  /** The grouping depends only on which tags are attached, not on their listing order. */
  lemma {:induction false} ByCategoryOrderIndependent(t1: seq<Tag>, t2: seq<Tag>)
    requires multiset(t1) == multiset(t2)
    ensures ByCategory(t1) == ByCategory(t2)
  {
    var m1, m2 := ByCategory(t1), ByCategory(t2);
    SameCategories(t1, t2);
    forall c | c in m1 ensures c in m2 && m1[c] == m2[c] {
      assert c in Categories(t1) && c in Categories(t2);
      SameCategoryValue(t1, t2, c);
    }
  }

  lemma SameCategories(t1: seq<Tag>, t2: seq<Tag>)
    requires multiset(t1) == multiset(t2)
    ensures ByCategory(t1).Keys == ByCategory(t2).Keys
  {
    forall c | c in ByCategory(t1) ensures c in ByCategory(t2) {
      var i :| 0 <= i < |t1| && t1[i].category == c;
      assert t1[i] in multiset(t2);
      var j :| 0 <= j < |t2| && t2[j] == t1[i];
    }
    forall c | c in ByCategory(t2) ensures c in ByCategory(t1) {
      var j :| 0 <= j < |t2| && t2[j].category == c;
      assert t2[j] in multiset(t1);
      var i :| 0 <= i < |t1| && t1[i] == t2[j];
    }
  }

  lemma SameCategoryValue(t1: seq<Tag>, t2: seq<Tag>, c: string)
    requires multiset(t1) == multiset(t2) && c in Categories(t1) && c in Categories(t2)
    ensures ByCategory(t1)[c] == ByCategory(t2)[c]
  {
    var s := Sort(NamesIn(t1, c));
    assert forall n :: multiset(s)[n] == multiset(t1)[Tag(c, n)] by {
      NamesInCount(t1, c);
    }
    ByCategoryValue(t1, c, s);
    ByCategoryValue(t2, c, s);
  }

  /** Both arrangements of two ordered strings sort to the ordered one. */
  lemma SortPair(a: string, b: string)
    requires Le(a, b)
    ensures Sort([a, b]) == [a, b] && Sort([b, a]) == [a, b]
  {
    assert Sorted([a, b]);
    assert multiset([b, a]) == multiset([a, b]);
    SortedUnique(Sort([a, b]), [a, b]);
    SortedUnique(Sort([b, a]), [a, b]);
  }

  lemma NamesInCons(t: Tag, rest: seq<Tag>, cat: string)
    ensures NamesIn([t] + rest, cat) == (if t.category == cat then [t.name] else []) + NamesIn(rest, cat)
  {
    assert ([t] + rest)[1..] == rest;
  }

  lemma TwoCategoryNames(c1: string, c2: string, a: string, b: string)
    requires c1 != c2
    ensures var tags := [Tag(c1, a), Tag(c1, b), Tag(c2, b), Tag(c2, a)];
      NamesIn(tags, c1) == [a, b] && NamesIn(tags, c2) == [b, a] && Categories(tags) == {c1, c2}
  {
    var x0, x1, x2, x3 := Tag(c1, a), Tag(c1, b), Tag(c2, b), Tag(c2, a);
    var t3 := [x3];
    var t2 := [x2] + t3;
    var t1 := [x1] + t2;
    var tags := [x0] + t1;
    assert tags == [Tag(c1, a), Tag(c1, b), Tag(c2, b), Tag(c2, a)];
    assert NamesIn(t3, c1) == [] && NamesIn(t3, c2) == [a] by {
      NamesInCons(x3, [], c1);
      NamesInCons(x3, [], c2);
      assert t3 == [x3] + [];
    }
    assert NamesIn(t2, c1) == [] && NamesIn(t2, c2) == [b, a] by {
      NamesInCons(x2, t3, c1);
      NamesInCons(x2, t3, c2);
    }
    assert NamesIn(t1, c1) == [b] && NamesIn(t1, c2) == [b, a] by {
      NamesInCons(x1, t2, c1);
      NamesInCons(x1, t2, c2);
    }
    assert NamesIn(tags, c1) == [a, b] && NamesIn(tags, c2) == [b, a] by {
      NamesInCons(x0, t1, c1);
      NamesInCons(x0, t1, c2);
    }
    TwoCategories(tags, c1, c2);
  }

  lemma TwoCategories(tags: seq<Tag>, c1: string, c2: string)
    requires |tags| == 4 && tags[0].category == tags[1].category == c1 && tags[2].category == tags[3].category == c2
    ensures Categories(tags) == {c1, c2}
  {
    forall c | c in Categories(tags) ensures c == c1 || c == c2 {
      var t :| t in tags && t.category == c;
    }
    assert tags[0] in tags && tags[2] in tags;
  }

  /** Two categories, each holding the same two names in opposite listing orders. */
  lemma GroupTwoCategories(c1: string, c2: string, a: string, b: string)
    requires c1 != c2 && Le(a, b)
    ensures var g := ByCategory([Tag(c1, a), Tag(c1, b), Tag(c2, b), Tag(c2, a)]);
      g.Keys == {c1, c2} && g[c1] == a + "|" + b && g[c2] == a + "|" + b
  {
    TwoCategoryNames(c1, c2, a, b);
    SortPair(a, b);
    assert Join([a, b], "|") == a + "|" + b by {
      assert [a, b][1..] == [b];
    }
  }

  /** The grouping test: names listed B, A in a category are reported as "A|B". */
  lemma ByCategoryExample()
    ensures var g := ByCategory([Tag("cat1", "A"), Tag("cat1", "B"), Tag("cat2", "B"), Tag("cat2", "A")]);
      g.Keys == {"cat1", "cat2"} && g["cat1"] == "A|B" && g["cat2"] == "A|B"
  {
    assert Le("A", "B");
    assert "A" + "|" + "B" == "A|B";
    GroupTwoCategories("cat1", "cat2", "A", "B");
  }

  // ---------------------------------------------------------------------
  // The tag catalogue: id -> Tag, built from the per-category listings.
  // ---------------------------------------------------------------------

  datatype TagInfo = TagInfo(id: TagId, name: string)

  /** One category of the tagging service with the tags defined in it. */
  datatype CategoryListing = CategoryListing(name: string, tags: seq<TagInfo>)

  /** The (id, Tag) pairs of one category, in listing order. */
  function EntriesOf(l: CategoryListing): (r: seq<(TagId, Tag)>)
    ensures |r| == |l.tags|
    ensures forall k :: 0 <= k < |l.tags| ==> r[k] == (l.tags[k].id, Tag(l.name, l.tags[k].name))
  {
    seq(|l.tags|, k requires 0 <= k < |l.tags| => (l.tags[k].id, Tag(l.name, l.tags[k].name)))
  }

  /** The (id, Tag) pairs of all categories, in listing order. */
  function Entries(ls: seq<CategoryListing>): seq<(TagId, Tag)> {
    if ls == [] then [] else Entries(ls[..|ls| - 1]) + EntriesOf(ls[|ls| - 1])
  }

  /** `base` with each pair of `es` written in turn, a later pair overwriting an earlier one. */
  function Index(base: map<TagId, Tag>, es: seq<(TagId, Tag)>): map<TagId, Tag> {
    if es == [] then base else Index(base, es[..|es| - 1])[es[|es| - 1].0 := es[|es| - 1].1]
  }

  lemma IndexNext(base: map<TagId, Tag>, es: seq<(TagId, Tag)>, e: (TagId, Tag))
    ensures Index(base, es + [e]) == Index(base, es)[e.0 := e.1]
  {
    assert (es + [e])[..|es|] == es;
  }

  lemma EntriesNext(ls: seq<CategoryListing>, i: nat)
    requires i < |ls|
    ensures Entries(ls[..i + 1]) == Entries(ls[..i]) + EntriesOf(ls[i])
  {
    assert ls[..i + 1][..i] == ls[..i];
  }

  /** With unique ids, every listed id resolves to the pair it was listed with. */
  lemma {:induction false} IndexResolves(base: map<TagId, Tag>, es: seq<(TagId, Tag)>)
    requires forall a, b :: 0 <= a < b < |es| ==> es[a].0 != es[b].0
    ensures forall a :: 0 <= a < |es| ==> es[a].0 in Index(base, es) && Index(base, es)[es[a].0] == es[a].1
  {
    if es != [] {
      var n := |es| - 1;
      IndexResolves(base, es[..n]);
      forall a | 0 <= a < |es| ensures es[a].0 in Index(base, es) && Index(base, es)[es[a].0] == es[a].1 {
        if a < n {
          assert es[..n][a] == es[a];
          assert es[a].0 != es[n].0;
        }
      }
    }
  }

  lemma {:induction false} EntriesContain(ls: seq<CategoryListing>, i: nat, k: nat)
    requires i < |ls| && k < |ls[i].tags|
    ensures (ls[i].tags[k].id, Tag(ls[i].name, ls[i].tags[k].name)) in Entries(ls)
  {
    var n := |ls| - 1;
    if i < n {
      assert ls[..n][i] == ls[i];
      EntriesContain(ls[..n], i, k);
    } else {
      assert EntriesOf(ls[n])[k] == (ls[i].tags[k].id, Tag(ls[i].name, ls[i].tags[k].name));
    }
  }

  /** The Tag an id resolves to; the empty Tag for an unknown id. */
  function LookupTag(byId: map<TagId, Tag>, id: TagId): Tag {
    if id in byId then byId[id] else EmptyTag
  }

  /**
   * With ids unique across the catalogue, every tag id resolves to the
   * category it was listed under and the name it was created with.
   */
  lemma CatalogResolves(base: map<TagId, Tag>, ls: seq<CategoryListing>, i: nat, k: nat)
    requires forall a, b :: 0 <= a < b < |Entries(ls)| ==> Entries(ls)[a].0 != Entries(ls)[b].0
    requires i < |ls| && k < |ls[i].tags|
    ensures LookupTag(Index(base, Entries(ls)), ls[i].tags[k].id) == Tag(ls[i].name, ls[i].tags[k].name)
  {
    EntriesContain(ls, i, k);
    IndexResolves(base, Entries(ls));
  }

  /** The attached tag ids of each object, resolved through the catalogue. */
  function Resolve(byId: map<TagId, Tag>, attached: map<Mor, seq<TagId>>): (r: TagIndex)
    ensures r.Keys == attached.Keys
    ensures forall ref, k :: ref in attached && 0 <= k < |attached[ref]| ==>
      |r[ref]| == |attached[ref]| && r[ref][k] == LookupTag(byId, attached[ref][k])
  {
    map ref | ref in attached :: seq(|attached[ref]|, k requires 0 <= k < |attached[ref]| => LookupTag(byId, attached[ref][k]))
  }

  /** Every catalogue entry comes from a tag of one of the listings: its id and its category's name. */
  lemma {:induction false} EntriesListed(ls: seq<CategoryListing>, a: nat)
    requires a < |Entries(ls)|
    ensures exists i, j :: 0 <= i < |ls| && 0 <= j < |ls[i].tags| && Entries(ls)[a] == (ls[i].tags[j].id, Tag(ls[i].name, ls[i].tags[j].name))
  {
    var n := |ls| - 1;
    var init := Entries(ls[..n]);
    if a < |init| {
      EntriesListed(ls[..n], a);
      var i, j :| 0 <= i < n && 0 <= j < |ls[..n][i].tags| &&
        init[a] == (ls[..n][i].tags[j].id, Tag(ls[..n][i].name, ls[..n][i].tags[j].name));
      assert ls[..n][i] == ls[i];
    } else {
      var j := a - |init|;
      assert Entries(ls)[a] == EntriesOf(ls[n])[j];
    }
  }

  /** The ids of the catalogue are the ids of `base` and the ids of the pairs, nothing else. */
  lemma {:induction false} IndexKeys(base: map<TagId, Tag>, es: seq<(TagId, Tag)>, id: TagId)
    ensures id in Index(base, es) <==> id in base || exists a :: 0 <= a < |es| && es[a].0 == id
  {
    if es != [] {
      var n := |es| - 1;
      IndexKeys(base, es[..n], id);
      if exists a :: 0 <= a < |es| && es[a].0 == id {
        var a :| 0 <= a < |es| && es[a].0 == id;
        if a < n {
          assert es[..n][a].0 == id;
        }
      }
      if exists a :: 0 <= a < n && es[..n][a].0 == id {
        var a :| 0 <= a < n && es[..n][a].0 == id;
        assert es[a].0 == id;
      }
    }
  }

  /**
   * What reading an object's tags gives, end to end: with the catalogue
   * built from the listings and ids unique across it, an attached id that
   * is listed resolves to the category it was listed under and the name it
   * was created with.
   */
  lemma ResolveListed(base: map<TagId, Tag>, ls: seq<CategoryListing>, attached: map<Mor, seq<TagId>>,
                      ref: Mor, k: nat, i: nat, j: nat)
    requires forall a, b :: 0 <= a < b < |Entries(ls)| ==> Entries(ls)[a].0 != Entries(ls)[b].0
    requires ref in attached && k < |attached[ref]|
    requires i < |ls| && j < |ls[i].tags| && attached[ref][k] == ls[i].tags[j].id
    ensures var r := Resolve(Index(base, Entries(ls)), attached);
      ref in r && |r[ref]| == |attached[ref]| && r[ref][k] == Tag(ls[i].name, ls[i].tags[j].name)
  {
    CatalogResolves(base, ls, i, j);
  }

  /** An attached id that is neither in `base` nor in any listing resolves to the empty Tag. */
  lemma ResolveUnlisted(base: map<TagId, Tag>, ls: seq<CategoryListing>, attached: map<Mor, seq<TagId>>,
                        ref: Mor, k: nat)
    requires ref in attached && k < |attached[ref]| && attached[ref][k] !in base
    requires forall i, j :: 0 <= i < |ls| && 0 <= j < |ls[i].tags| ==> ls[i].tags[j].id != attached[ref][k]
    ensures Resolve(Index(base, Entries(ls)), attached)[ref][k] == EmptyTag
  {
    var id := attached[ref][k];
    IndexKeys(base, Entries(ls), id);
    if exists a :: 0 <= a < |Entries(ls)| && Entries(ls)[a].0 == id {
      var a :| 0 <= a < |Entries(ls)| && Entries(ls)[a].0 == id;
      EntriesListed(ls, a);
    }
  }

  // ---------------------------------------------------------------------
  // The collector: filter, catalogue and per-object cache for one cycle.
  // ---------------------------------------------------------------------

  class TagCollector {
    var filterTags: seq<Tag>
    var tagsByID: map<TagId, Tag>
    var tagsByObject: TagIndex

    constructor ()
      ensures filterTags == [] && tagsByID == map[] && tagsByObject == map[]
    {
      filterTags := [];
      tagsByID := map[];
      tagsByObject := map[];
    }

    /**
     * Records every tag of the catalogue under its id, resolved to its
     * category's name. A failed listing leaves the catalogue as it was.
     */
    method BuildTagCache(catalog: Option<seq<CategoryListing>>) returns (ok: bool)
      modifies this`tagsByID
      ensures ok == catalog.Some?
      ensures catalog.Some? ==> tagsByID == Index(old(tagsByID), Entries(catalog.value))
      ensures catalog.None? ==> tagsByID == old(tagsByID)
    {
      if catalog.None? {
        return false;
      }
      var ls := catalog.value;
      var i := 0;
      while i < |ls|
        invariant 0 <= i <= |ls|
        invariant tagsByID == Index(old(tagsByID), Entries(ls[..i]))
      {
        var category := ls[i];
        ghost var done := Entries(ls[..i]);
        ghost var es := EntriesOf(category);
        assert done + es[..0] == done;
        var k := 0;
        while k < |category.tags|
          invariant 0 <= k <= |category.tags|
          invariant tagsByID == Index(old(tagsByID), done + es[..k])
        {
          var t := category.tags[k];
          assert tagsByID[t.id := Tag(category.name, t.name)] == Index(old(tagsByID), done + es[..k + 1]) by {
            assert done + es[..k + 1] == (done + es[..k]) + [es[k]];
            IndexNext(old(tagsByID), done + es[..k], es[k]);
          }
          tagsByID := tagsByID[t.id := Tag(category.name, t.name)];
          k := k + 1;
        }
        assert tagsByID == Index(old(tagsByID), Entries(ls[..i + 1])) by {
          assert es[..k] == es;
          EntriesNext(ls, i);
        }
        i := i + 1;
      }
      assert ls[..i] == ls;
      return true;
    }

    /** The Tag an id resolves to; the empty Tag for an unknown id. */
    function GetTagByID(id: TagId): (t: Tag)
      reads this
      ensures id in tagsByID ==> t == tagsByID[id]
      ensures id !in tagsByID ==> t == EmptyTag
    {
      LookupTag(tagsByID, id)
    }

    /** Adds a batch of per-object tag lists to the cache; a listed object's entry is replaced. */
    method CacheTags(batch: TagIndex)
      modifies this`tagsByObject
      ensures tagsByObject.Keys == old(tagsByObject).Keys + batch.Keys
      ensures forall ref :: ref in batch ==> tagsByObject[ref] == batch[ref]
      ensures forall ref :: ref in old(tagsByObject) && ref !in batch ==> tagsByObject[ref] == old(tagsByObject)[ref]
    {
      tagsByObject := tagsByObject + batch;
    }

    /**
     * Caches the tags the tagging service reports as attached to a batch of
     * objects, resolving their ids through the catalogue. A failed query
     * leaves the cache unchanged and is reported to the caller.
     */
    method FetchTagsForObjects(attached: Option<map<Mor, seq<TagId>>>) returns (ok: bool)
      modifies this`tagsByObject
      ensures ok == attached.Some?
      ensures attached.Some? ==> tagsByObject == old(tagsByObject) + Resolve(tagsByID, attached.value)
      ensures attached.None? ==> tagsByObject == old(tagsByObject)
    {
      if attached.None? {
        return false;
      }
      CacheTags(Resolve(tagsByID, attached.value));
      return true;
    }

    /** Replaces the filter with the terms of `expr`. */
    method ParseFilterTagExpression(expr: string)
      modifies this`filterTags
      ensures filterTags == ParseFilter(expr)
    {
      filterTags := [];
      var tokens := Fields(expr);
      var k := 0;
      while k < |tokens|
        invariant 0 <= k <= |tokens|
        invariant filterTags == Terms(tokens[..k])
      {
        assert tokens[..k + 1][..k] == tokens[..k];
        var term := Term(tokens[k]);
        if term.Some? {
          filterTags := filterTags + [term.value];
        }
        k := k + 1;
      }
      assert tokens[..k] == tokens;
    }

    /** Whether some tag of `tags` equals some term of the filter. */
    function MatchTags(tags: seq<Tag>): (r: bool)
      reads this
      ensures tags == [] || filterTags == [] ==> !r
      ensures r <==> exists i, j :: 0 <= i < |tags| && 0 <= j < |filterTags| && tags[i] == filterTags[j]
    {
      Matches(filterTags, tags)
    }

    /** Whether the tags cached for `ref` satisfy the filter; an uncached object never does. */
    function MatchObjectTags(ref: Mor): (r: bool)
      reads this
      ensures ref !in tagsByObject ==> !r
      ensures r <==> exists i, j :: 0 <= i < |ObjectTags(tagsByObject, ref)| && 0 <= j < |filterTags| && ObjectTags(tagsByObject, ref)[i] == filterTags[j]
    {
      MatchTags(ObjectTags(tagsByObject, ref))
    }

    /** The cached tags of `ref` grouped per category, names sorted and joined with '|'. */
    function GetTagsByCategories(ref: Mor): (r: map<string, string>)
      reads this
      ensures ref !in tagsByObject ==> r == map[]
      ensures forall c :: c in r <==> exists i :: 0 <= i < |ObjectTags(tagsByObject, ref)| && ObjectTags(tagsByObject, ref)[i].category == c
      ensures forall c, s :: c in r && Sorted(s) && multiset(s) == multiset(NamesIn(ObjectTags(tagsByObject, ref), c)) ==> r[c] == Join(s, "|")
    {
      ByCategory(ObjectTags(tagsByObject, ref))
    }
  }

  /**
   * The filter-parsing test: one collector, four expressions, each parse
   * replacing the last. `parsed` holds the filter after each parse.
   */
  method ParseFilterScenario() returns (parsed: seq<seq<Tag>>)
    ensures parsed == [[], [], [Tag("region", "eu")], [Tag("region", "eu"), Tag("env", "test")]]
  {
    var collector := new TagCollector();
    collector.ParseFilterTagExpression("key value");
    var f1 := collector.filterTags;
    assert f1 == [] by { ParseFilterBareWords(); }
    collector.ParseFilterTagExpression("key:value");
    var f2 := collector.filterTags;
    assert f2 == [] by { ParseFilterWithoutEq(); }
    collector.ParseFilterTagExpression("region=eu");
    var f3 := collector.filterTags;
    assert f3 == [Tag("region", "eu")] by { ParseFilterOneTerm(); }
    collector.ParseFilterTagExpression("region=eu env=test");
    var f4 := collector.filterTags;
    assert f4 == [Tag("region", "eu"), Tag("env", "test")] by { ParseFilterTwoTerms(); }
    parsed := [f1, f2, f3, f4];
  }

  /** The grouping test: tags cached for one object, then grouped by category. */
  method GroupingScenario() returns (grouped: map<string, string>)
    ensures grouped.Keys == {"cat1", "cat2"} && grouped["cat1"] == "A|B" && grouped["cat2"] == "A|B"
  {
    var ref := Mor("type", "val");
    var ts := [Tag("cat1", "A"), Tag("cat1", "B"), Tag("cat2", "B"), Tag("cat2", "A")];
    var collector := new TagCollector();
    collector.CacheTags(map[ref := ts]);
    ByCategoryExample();
    assert ObjectTags(collector.tagsByObject, ref) == ts;
    grouped := collector.GetTagsByCategories(ref);
    assert grouped == ByCategory(ts);
  }
}
