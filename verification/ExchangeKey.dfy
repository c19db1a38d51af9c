/** The canonical key under which token exchanges are cached: what is hashed, and
    that two requests share it exactly when they ask for the same thing. */
module ExchangeKeys {

  // ---- sorting ----

  predicate Leq(a: string, b: string) {
    a == [] || (b != [] && (a[0] < b[0] || (a[0] == b[0] && Leq(a[1..], b[1..]))))
  }

  lemma {:induction false} LeqTotal(a: string, b: string)
    ensures Leq(a, b) || Leq(b, a)
  {
    if a != [] && b != [] { LeqTotal(a[1..], b[1..]); }
  }

  lemma {:induction false} LeqAntisymmetric(a: string, b: string)
    requires Leq(a, b) && Leq(b, a)
    ensures a == b
  {
    if a != [] && b != [] {
      LeqAntisymmetric(a[1..], b[1..]);
      assert a == [a[0]] + a[1..] && b == [b[0]] + b[1..];
    }
  }

  lemma {:induction false} LeqTransitive(a: string, b: string, c: string)
    requires Leq(a, b) && Leq(b, c)
    ensures Leq(a, c)
  {
    if a != [] && a[0] == b[0] == c[0] { LeqTransitive(a[1..], b[1..], c[1..]); }
  }

  ghost predicate Ordered(s: seq<string>) {
    forall i, j :: 0 <= i < j < |s| ==> Leq(s[i], s[j])
  }

  function Insert(x: string, s: seq<string>): (r: seq<string>)
    ensures multiset(r) == multiset{x} + multiset(s)
  {
    if s == [] then [x]
    else if Leq(x, s[0]) then [x] + s
    else
      assert s == [s[0]] + s[1..];
      [s[0]] + Insert(x, s[1..])
  }

  /** sort.Strings on a copy, `sorted` in Python, `sort` in TypeScript. */
  function Sort(s: seq<string>): (r: seq<string>)
    ensures multiset(r) == multiset(s)
  {
    if s == [] then []
    else
      assert s == [s[0]] + s[1..];
      Insert(s[0], Sort(s[1..]))
  }

  lemma {:induction false} InsertOrdered(x: string, s: seq<string>)
    requires Ordered(s)
    ensures Ordered(Insert(x, s))
  {
    if s != [] {
      if Leq(x, s[0]) {
        forall i | 0 <= i < |s| ensures Leq(x, s[i]) {
          if i > 0 { LeqTransitive(x, s[0], s[i]); }
        }
      } else {
        LeqTotal(x, s[0]);
        InsertOrdered(x, s[1..]);
        var r := Insert(x, s[1..]);
        forall i | 0 <= i < |r| ensures Leq(s[0], r[i]) {
          assert r[i] in multiset(r);
          assert r[i] == x || r[i] in s[1..];
        }
      }
    }
  }

  lemma {:induction false} SortOrdered(s: seq<string>)
    ensures Ordered(Sort(s))
  {
    if s != [] {
      SortOrdered(s[1..]);
      InsertOrdered(s[0], Sort(s[1..]));
    }
  }

  /** Two ordered sequences with the same elements are the same sequence. */
  lemma {:induction false} OrderedUnique(a: seq<string>, b: seq<string>)
    requires Ordered(a) && Ordered(b) && multiset(a) == multiset(b)
    ensures a == b
  {
    assert |a| == |multiset(a)| == |b|;
    if a != [] {
      assert a[0] in multiset(b) && b[0] in multiset(a);
      FirstIsLeast(a, b[0]);
      FirstIsLeast(b, a[0]);
      LeqAntisymmetric(a[0], b[0]);
      TailElements(a);
      TailElements(b);
      OrderedUnique(a[1..], b[1..]);
      assert a == [a[0]] + a[1..] && b == [b[0]] + b[1..];
    }
  }

  lemma {:induction false} FirstIsLeast(s: seq<string>, x: string)
    requires Ordered(s) && x in s
    ensures Leq(s[0], x)
  {
    LeqReflexive(x);
  }

  lemma TailElements(s: seq<string>)
    requires s != []
    ensures multiset(s[1..]) == multiset(s) - multiset{s[0]}
  {
    assert s == [s[0]] + s[1..];
  }

  lemma {:induction false} LeqReflexive(a: string)
    ensures Leq(a, a)
  {
    LeqTotal(a, a);
  }

  // ---- joining ----

  function Join(parts: seq<string>): string {
    if parts == [] then "" else if |parts| == 1 then parts[0] else parts[0] + [' '] + Join(parts[1..])
  }

  predicate Plain(text: string, separator: char) {
    separator !in text
  }

  /** The first separator splits a text in only one way. */
  lemma SplitOnce(a: string, b: string, a': string, b': string, c: char)
    requires Plain(a, c) && Plain(a', c) && a + [c] + b == a' + [c] + b'
    ensures a == a' && b == b'
  {
    var whole := a + [c] + b;
    var whole' := a' + [c] + b';
    assert whole[|a|] == c && whole'[|a'|] == c;
    assert whole[..|a|] == a && whole'[..|a'|] == a';
    assert whole[|a| + 1..] == b && whole'[|a'| + 1..] == b';
  }

  ghost predicate ScopeNames(scopes: seq<string>) {
    forall scope :: scope in scopes ==> scope != "" && Plain(scope, ' ')
  }

  lemma NamesTail(scopes: seq<string>)
    requires ScopeNames(scopes) && scopes != []
    ensures scopes[0] != "" && Plain(scopes[0], ' ') && ScopeNames(scopes[1..])
  {
    assert scopes[0] in scopes;
    forall scope | scope in scopes[1..] ensures scope in scopes { }
  }

  /** Joining non-empty names without spaces loses nothing. */
  lemma {:induction false} JoinInjective(a: seq<string>, b: seq<string>)
    requires ScopeNames(a) && ScopeNames(b) && Join(a) == Join(b)
    ensures a == b
  {
    if a != [] { NamesTail(a); assert a == [a[0]] + a[1..]; }
    if b != [] { NamesTail(b); assert b == [b[0]] + b[1..]; }
    if |a| >= 2 && |b| >= 2 {
      SplitOnce(a[0], Join(a[1..]), b[0], Join(b[1..]), ' ');
      JoinInjective(a[1..], b[1..]);
    }
  }

  // ---- the key ----

  datatype Request = Request(subjectToken: string, audience: string, scopes: seq<string>)

  /** The text that is hashed. */
  function Material(r: Request): string {
    r.subjectToken + ['\0'] + (r.audience + ['\0'] + Join(Sort(r.scopes)))
  }

  ghost predicate Canonical(r: Request) {
    Plain(r.subjectToken, '\0') && Plain(r.audience, '\0') && ScopeNames(r.scopes)
  }

  /** The same subject and audience, and the same scopes up to order. */
  ghost predicate SameRequest(r1: Request, r2: Request) {
    r1.subjectToken == r2.subjectToken && r1.audience == r2.audience && multiset(r1.scopes) == multiset(r2.scopes)
  }

  lemma {:induction false} SortNames(scopes: seq<string>)
    requires ScopeNames(scopes)
    ensures ScopeNames(Sort(scopes))
  {
    forall scope | scope in Sort(scopes) ensures scope != "" && Plain(scope, ' ') {
      assert scope in multiset(Sort(scopes));
      assert scope in scopes;
    }
  }

  lemma {:induction false} SortCanonical(a: seq<string>, b: seq<string>)
    ensures Sort(a) == Sort(b) <==> multiset(a) == multiset(b)
  {
    if multiset(a) == multiset(b) {
      SortOrdered(a);
      SortOrdered(b);
      OrderedUnique(Sort(a), Sort(b));
    }
  }

  /** Two requests hash the same text exactly when they are the same request. */
  lemma MaterialIsCanonical(r1: Request, r2: Request)
    requires Canonical(r1) && Canonical(r2)
    ensures Material(r1) == Material(r2) <==> SameRequest(r1, r2)
  {
    SortCanonical(r1.scopes, r2.scopes);
    if Material(r1) == Material(r2) {
      SplitOnce(r1.subjectToken, r1.audience + ['\0'] + Join(Sort(r1.scopes)),
                r2.subjectToken, r2.audience + ['\0'] + Join(Sort(r2.scopes)), '\0');
      SplitOnce(r1.audience, Join(Sort(r1.scopes)), r2.audience, Join(Sort(r2.scopes)), '\0');
      SortNames(r1.scopes);
      SortNames(r2.scopes);
      JoinInjective(Sort(r1.scopes), Sort(r2.scopes));
    }
  }

  ghost predicate Enumerates(order: seq<string>, scopes: set<string>) {
    (forall i, j :: 0 <= i < j < |order| ==> order[i] != order[j]) && (forall x :: x in scopes <==> x in order)
  }

  lemma EnumeratesSameSet(order1: seq<string>, order2: seq<string>, scopes1: set<string>, scopes2: set<string>)
    requires Enumerates(order1, scopes1) && Enumerates(order2, scopes2)
    ensures multiset(order1) == multiset(order2) <==> scopes1 == scopes2
  {
    EnumerationOnce(order1);
    EnumerationOnce(order2);
    assert forall x :: x in multiset(order1) <==> x in scopes1;
    assert forall x :: x in multiset(order2) <==> x in scopes2;
    if scopes1 == scopes2 {
      forall x: string ensures multiset(order1)[x] == multiset(order2)[x] {
        assert x in multiset(order1) <==> x in multiset(order2);
      }
    }
    if multiset(order1) == multiset(order2) {
      forall x ensures x in scopes1 <==> x in scopes2 {
        assert x in multiset(order1) <==> x in multiset(order2);
      }
    }
  }

  /** Python passes a set: whatever order each set is enumerated in, the keys agree
      exactly when subject, audience and scope sets do. */
  lemma SetMaterialIsCanonical(r1: Request, r2: Request, scopes1: set<string>, scopes2: set<string>)
    requires Canonical(r1) && Canonical(r2) && Enumerates(r1.scopes, scopes1) && Enumerates(r2.scopes, scopes2)
    ensures Material(r1) == Material(r2) <==>
      r1.subjectToken == r2.subjectToken && r1.audience == r2.audience && scopes1 == scopes2
  {
    MaterialIsCanonical(r1, r2);
    EnumeratesSameSet(r1.scopes, r2.scopes, scopes1, scopes2);
  }

  lemma {:induction false} EnumerationOnce(order: seq<string>)
    requires forall i, j :: 0 <= i < j < |order| ==> order[i] != order[j]
    ensures forall x :: multiset(order)[x] <= 1
  {
    if order != [] {
      var init := order[..|order| - 1];
      EnumerationOnce(init);
      assert order == init + [order[|order| - 1]];
      assert order[|order| - 1] !in init;
    }
  }

  // ---- without conditions on the scopes ----

  /** A text cut at every space; the empty text is one empty word. */
  function Words(s: string): (r: seq<string>)
    ensures r != []
  {
    if s == "" then [""]
    else
      var rest := Words(s[1..]);
      if s[0] == ' ' then [""] + rest else [[s[0]] + rest[0]] + rest[1..]
  }

  /** The words of a scope list in order; no scope at all reads as one empty word. */
  function Pieces(scopes: seq<string>): (r: seq<string>)
    ensures |r| >= 1 && |r| >= |scopes|
  {
    if scopes == [] then [""] else if |scopes| == 1 then Words(scopes[0]) else Words(scopes[0]) + Pieces(scopes[1..])
  }

  lemma {:induction false} JoinWords(s: string)
    ensures Join(Words(s)) == s
  {
    if s != "" {
      JoinWords(s[1..]);
      var rest, words := Words(s[1..]), Words(s);
      if s[0] == ' ' {
        assert words[1..] == rest;
      } else {
        assert words[1..] == rest[1..];
        assert words[0] == [s[0]] + rest[0];
      }
      assert s == [s[0]] + s[1..];
    }
  }

  lemma {:induction false} WordsOfPair(a: string, b: string)
    ensures Words(a + [' '] + b) == Words(a) + Words(b)
  {
    if a == "" {
      assert ([' '] + b)[1..] == b && a + [' '] + b == [' '] + b;
    } else {
      assert (a + [' '] + b)[1..] == a[1..] + [' '] + b;
      WordsOfPair(a[1..], b);
    }
  }

  lemma {:induction false} WordsOfJoin(scopes: seq<string>)
    ensures Words(Join(scopes)) == Pieces(scopes)
  {
    if |scopes| > 1 {
      WordsOfJoin(scopes[1..]);
      WordsOfPair(scopes[0], Join(scopes[1..]));
    }
  }

  /** For any scopes at all: two requests share a key exactly when subject and audience
      are equal and the sorted scope lists have the same words in the same order. */
  lemma SharedKeyExactly(r1: Request, r2: Request)
    requires Plain(r1.subjectToken, '\0') && Plain(r1.audience, '\0') && Plain(r2.subjectToken, '\0') && Plain(r2.audience, '\0')
    ensures Material(r1) == Material(r2) <==>
      r1.subjectToken == r2.subjectToken && r1.audience == r2.audience && Pieces(Sort(r1.scopes)) == Pieces(Sort(r2.scopes))
  {
    var j1, j2 := Join(Sort(r1.scopes)), Join(Sort(r2.scopes));
    WordsOfJoin(Sort(r1.scopes));
    WordsOfJoin(Sort(r2.scopes));
    JoinWords(j1);
    JoinWords(j2);
    if Material(r1) == Material(r2) {
      SplitOnce(r1.subjectToken, r1.audience + ['\0'] + j1, r2.subjectToken, r2.audience + ['\0'] + j2, '\0');
      SplitOnce(r1.audience, j1, r2.audience, j2, '\0');
    }
  }

  /** The conditions on the scopes are needed. A space: the one scope "x y" and the two
      scopes "x" and "y", in this order when sorted, share a key. */
  lemma {:induction false} SpacedScopeCollides(subject: string, audience: string, x: string, y: string)
    requires Leq(x, y)
    ensures var joined, split := Request(subject, audience, [x + [' '] + y]), Request(subject, audience, [x, y]);
      Material(joined) == Material(split) && !SameRequest(joined, split)
  {
    var one, two := [x + [' '] + y], [x, y];
    assert one[1..] == [] && two[1..] == [y] && [y][1..] == [];
    assert Sort([y]) == [y] && Sort(two) == two && Sort(one) == one;
    assert Join([y]) == y && Join(one) == x + [' '] + y && Join(two) == x + [' '] + y;
    assert |multiset(one)| == 1 && |multiset(two)| == 2;
  }

  ghost predicate Collides(r1: Request, r2: Request) {
    Material(r1) == Material(r2) && !SameRequest(r1, r2)
  }

  /** One scope of two words collides with other scopes of the same subject and audience
      if and only if its words are in order: "b a" meets nothing else. */
  lemma {:induction false} TwoWordsCollideExactly(subject: string, audience: string, x: string, y: string)
    requires Plain(subject, '\0') && Plain(audience, '\0') && Plain(x, ' ') && Plain(y, ' ')
    ensures (exists scopes :: Collides(Request(subject, audience, [x + [' '] + y]), Request(subject, audience, scopes))) <==> Leq(x, y)
  {
    var r1 := Request(subject, audience, [x + [' '] + y]);
    if Leq(x, y) {
      SpacedScopeCollides(subject, audience, x, y);
      assert Collides(r1, Request(subject, audience, [x, y]));
    }
    forall scopes | Collides(r1, Request(subject, audience, scopes)) ensures Leq(x, y) {
      SharedKeyExactly(r1, Request(subject, audience, scopes));
      SortOrdered(scopes);
      TwoWords(scopes, x, y);
    }
  }

  lemma {:induction false} PlainWord(s: string)
    requires Plain(s, ' ')
    ensures Words(s) == [s]
  {
    if s != "" {
      PlainWord(s[1..]);
      assert s == [s[0]] + s[1..] && s[0] in s;
    }
  }

  lemma {:induction false} SingleNames(a: seq<string>, b: seq<string>)
    requires |a| == |b| == 1 && Pieces(a) == Pieces(b)
    ensures a == b
  {
    JoinWords(a[0]);
    JoinWords(b[0]);
  }

  lemma {:induction false} TwoWords(scopes: seq<string>, x: string, y: string)
    requires Plain(x, ' ') && Plain(y, ' ') && Ordered(Sort(scopes))
    requires Pieces(Sort(scopes)) == Pieces(Sort([x + [' '] + y])) && multiset(scopes) != multiset([x + [' '] + y])
    ensures Leq(x, y)
  {
    var sorted, one := Sort(scopes), [x + [' '] + y];
    assert one[1..] == [] && Sort(one) == one;
    WordsOfPair(x, y);
    PlainWord(x);
    PlainWord(y);
    assert Pieces(one) == [x, y];
    if |sorted| == 1 {
      SingleNames(sorted, one);
      assert false;
    }
    assert Pieces(sorted) == Words(sorted[0]) + Pieces(sorted[1..]);
    JoinWords(sorted[0]);
    JoinWords(sorted[1]);
    assert sorted[1..][0] == sorted[1] && |Words(sorted[0])| == 1;
    assert Words(sorted[0]) == Pieces(sorted)[..1] && Pieces(sorted[1..]) == Pieces(sorted)[1..];
  }

  /** An empty scope: asking for the one empty scope shares the key of asking for none. */
  lemma EmptyScopeCollides(subject: string, audience: string)
    ensures Collides(Request(subject, audience, [""]), Request(subject, audience, []))
  {
    assert [""][1..] == [] && Sort([""]) == [""];
    assert |multiset([""])| == 1;
  }

  /** A NUL inside the subject or the audience moves the boundary between them. */
  lemma NulCollides(s: string, t: string, audience: string, scopes: seq<string>)
    ensures var left, right := Request(s + ['\0'] + t, audience, scopes), Request(s, t + ['\0'] + audience, scopes);
      Material(left) == Material(right) && !SameRequest(left, right)
  {
    var rest := Join(Sort(scopes));
    assert (s + ['\0'] + t) + ['\0'] + (audience + ['\0'] + rest) == s + ['\0'] + ((t + ['\0'] + audience) + ['\0'] + rest);
    assert |s + ['\0'] + t| > |s|;
  }

  function Nuls(s: string): nat {
    multiset(s)['\0']
  }

  lemma NulsOfMaterial(r: Request)
    ensures Nuls(Material(r)) == Nuls(r.subjectToken) + Nuls(r.audience) + Nuls(Join(Sort(r.scopes))) + 2
  {
    var j := Join(Sort(r.scopes));
    assert multiset(['\0'])['\0'] == 1;
    assert multiset(r.audience + ['\0'] + j) == multiset(r.audience) + multiset(['\0']) + multiset(j);
    assert multiset(Material(r)) == multiset(r.subjectToken) + multiset(['\0']) + multiset(r.audience + ['\0'] + j);
  }

  /** Another request for a different subject or audience has the same key. */
  ghost predicate Confused(r1: Request, r2: Request) {
    Material(r1) == Material(r2) && (r1.subjectToken, r1.audience) != (r2.subjectToken, r2.audience)
  }

  lemma FirstNul(s: string) returns (a: string, b: string)
    requires '\0' in s
    ensures s == a + ['\0'] + b
  {
    var i :| 0 <= i < |s| && s[i] == '\0';
    a, b := s[..i], s[i + 1..];
  }

  lemma NulInSubject(r: Request)
    requires '\0' in r.subjectToken
    ensures exists other :: Confused(r, other)
  {
    var a, b := FirstNul(r.subjectToken);
    NulCollides(a, b, r.audience, r.scopes);
    assert Confused(r, Request(a, b + ['\0'] + r.audience, r.scopes));
  }

  lemma NulInAudience(r: Request)
    requires '\0' in r.audience
    ensures exists other :: Confused(r, other)
  {
    var a, b := FirstNul(r.audience);
    NulCollides(r.subjectToken, a, b, r.scopes);
    assert Confused(r, Request(r.subjectToken + ['\0'] + a, b, r.scopes));
  }

  lemma NulInScopes(r: Request)
    requires '\0' in Join(Sort(r.scopes))
    ensures exists other :: Confused(r, other)
  {
    var a, b := FirstNul(Join(Sort(r.scopes)));
    var other := Request(r.subjectToken + ['\0'] + r.audience, a, [b]);
    assert [b][1..] == [] && Sort([b]) == [b] && Join([b]) == b;
    assert Material(r) == r.subjectToken + ['\0'] + (r.audience + ['\0'] + (a + ['\0'] + b));
    assert Material(other) == Material(r);
    assert |other.subjectToken| > |r.subjectToken|;
    assert Confused(r, other);
  }

  lemma NulFreeIsSafe(r: Request, other: Request)
    requires '\0' !in r.subjectToken && '\0' !in r.audience && '\0' !in Join(Sort(r.scopes))
    ensures !Confused(r, other)
  {
    if Material(r) == Material(other) {
      NulsOfMaterial(r);
      NulsOfMaterial(other);
      NoNuls(r.subjectToken);
      NoNuls(r.audience);
      NoNuls(Join(Sort(r.scopes)));
      NoNuls(other.subjectToken);
      NoNuls(other.audience);
      SharedKeyExactly(r, other);
    }
  }

  /** A NUL anywhere in a request, and nothing else, lets a request for another subject
      or audience share its key. */
  lemma NulCollidesExactly(r: Request)
    ensures (exists other :: Confused(r, other)) <==> '\0' in r.subjectToken || '\0' in r.audience || '\0' in Join(Sort(r.scopes))
  {
    if '\0' in r.subjectToken {
      NulInSubject(r);
    } else if '\0' in r.audience {
      NulInAudience(r);
    } else if '\0' in Join(Sort(r.scopes)) {
      NulInScopes(r);
    } else {
      forall other ensures !Confused(r, other) {
        NulFreeIsSafe(r, other);
      }
    }
  }

  lemma NoNuls(s: string)
    ensures Nuls(s) == 0 <==> Plain(s, '\0')
  {
    assert '\0' in s <==> '\0' in multiset(s);
  }
}
