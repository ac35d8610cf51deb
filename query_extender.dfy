/**
 * The synonym rewriter of the WordNet study: every `key:term` of a boolean
 * query whose term has synonyms is replaced by the disjunction of the term
 * and its synonyms under the same key.
 */
module QueryExtenders {
  import opened JavaLang

  /** The alternatives of the regular expression `AND|OR|NOT` the query is split at. */
  const Operators: seq<string> := ["AND", "OR", "NOT"]

  /** The key and the term of one part of a query, as in `plot:wall`. */
  datatype FieldTerm = FieldTerm(key: string, term: string)

  /** `key + ":" + term`, the text the rewriter searches for. */
  function Qualified(key: string, term: string): (r: string)
    ensures |r| == |key| + 1 + |term| && r[|key|] == ':'
  {
    key + ":" + term
  }

  /** A part is trimmed and loses every `(` and every `)`. */
  function Clean(part: string): string {
    Replace(Replace(Trim(part), "(", ""), ")", "")
  }

  /**
   * The term is what follows the first `:` (the whole part when there is
   * none); the key is what precedes it, and `substring(0, -1)` throws when
   * there is no `:`.
   */
  function Split1(p: string): (r: Result<FieldTerm>)
    ensures r.Ok? <==> ':' in p
    ensures r.Thrown? ==> r.failure == IndexOutOfBounds
    ensures r.Ok? ==> Qualified(r.value.key, r.value.term) == p && ':' !in r.value.key
  {
    var i := IndexOf(p, ':');
    var term := p[i + 1..];
    match Substring(p, 0, i)
    case Thrown(f) => Thrown(f)
    case Ok(key) =>
      assert p == key + ":" + term by { assert p == p[..i] + [p[i]] + p[i + 1..]; }
      Ok(FieldTerm(key, term))
  }

  /** `list.indexOf(x)`: the first position holding `x`, or -1. */
  function IndexOfItem(xs: seq<string>, x: string): (r: int)
    ensures -1 <= r < |xs|
    ensures r == -1 <==> x !in xs
    ensures r >= 0 ==> xs[r] == x && x !in xs[..r]
  {
    if xs == [] then -1
    else if xs[0] == x then 0
    else var k := IndexOfItem(xs[1..], x); assert xs[1..] == xs[1..][..]; (if k == -1 then -1 else k + 1)
  }

  predicate Distinct(xs: seq<string>) {
    forall i, j :: 0 <= i < j < |xs| ==> xs[i] != xs[j]
  }

  // ---------------------------------------------------------------------------
  // The replacement text
  // ---------------------------------------------------------------------------

  /**
   * The text appended for the synonyms `rest`, the tail of `all`: each one is
   * qualified by the key and followed by `)` when `all.indexOf` of it is the
   * last position, and by ` OR ` otherwise.
   */
  function SynonymsText(key: string, all: seq<string>, rest: seq<string>): string
    decreases |rest|
  {
    if rest == [] then ""
    else
      Qualified(key, rest[0]) + Closer(all, rest[0]) + SynonymsText(key, all, rest[1..])
  }

  /** What follows a synonym: `)` when `all.indexOf` of it is the last position, ` OR ` otherwise. */
  function Closer(all: seq<string>, w: string): string {
    if IndexOfItem(all, w) == |all| - 1 then ")" else " OR "
  }

  /** The contents of the string builder once every synonym is appended. */
  function Alternatives(key: string, term: string, synonyms: seq<string>): string {
    "(" + Qualified(key, term) + " OR " + SynonymsText(key, synonyms, synonyms)
  }

  /** Every word qualified by the key. */
  function QualifyAll(key: string, ws: seq<string>): (r: seq<string>)
    ensures |r| == |ws|
    ensures forall i :: 0 <= i < |ws| ==> r[i] == Qualified(key, ws[i])
  {
    if ws == [] then [] else [Qualified(key, ws[0])] + QualifyAll(key, ws[1..])
  }

  /** In a list without repetitions, `indexOf` finds each element at its own position. */
  lemma IndexOfDistinct(xs: seq<string>, i: nat)
    requires Distinct(xs) && i < |xs|
    ensures IndexOfItem(xs, xs[i]) == i
  {
    assert xs[i] in xs;
  }

  lemma {:induction false} SynonymsTextDistinct(key: string, all: seq<string>, n: nat)
    requires Distinct(all) && n < |all|
    ensures SynonymsText(key, all, all[n..]) == Join(QualifyAll(key, all[n..]), " OR ") + ")"
    decreases |all| - n
  {
    var rest := all[n..];
    IndexOfDistinct(all, n);
    assert rest[0] == all[n];
    if n == |all| - 1 {
      assert rest[1..] == [];
    } else {
      assert rest[1..] == all[n + 1..];
      SynonymsTextDistinct(key, all, n + 1);
      var q := QualifyAll(key, rest);
      assert q[1..] == QualifyAll(key, all[n + 1..]);
    }
  }

  /**
   * For a non-empty list of distinct synonyms the replacement is the term and
   * its synonyms, each qualified by the key, joined by ` OR ` in parentheses.
   */
  lemma AlternativesDistinct(key: string, term: string, synonyms: seq<string>)
    requires synonyms != [] && Distinct(synonyms)
    ensures Alternatives(key, term, synonyms)
         == "(" + Join(QualifyAll(key, [term] + synonyms), " OR ") + ")"
  {
    var rest := QualifyAll(key, synonyms);
    SynonymsTextDistinct(key, synonyms, 0);
    assert synonyms[0..] == synonyms;
    assert QualifyAll(key, [term] + synonyms) == [Qualified(key, term)] + rest;
    JoinCons(Qualified(key, term), rest, " OR ");
    Regroup("(", Qualified(key, term), " OR ", Join(rest, " OR "), ")");
  }

  /** Joining a list with one more element in front puts that element and a separator first. */
  lemma JoinCons(x: string, xs: seq<string>, sep: string)
    requires xs != []
    ensures Join([x] + xs, sep) == x + sep + Join(xs, sep)
  {
    assert ([x] + xs)[1..] == xs;
  }

  /** Concatenation regrouped. */
  lemma Regroup<T>(a: seq<T>, b: seq<T>, c: seq<T>, d: seq<T>, e: seq<T>)
    ensures a + b + c + (d + e) == a + (b + c + d) + e
  {
    assert a + b + c + (d + e) == a + b + c + d + e;
  }

  /**
   * A list whose last synonym also occurs earlier never gets its closing
   * parenthesis: `indexOf` points at the earlier copy, so the last synonym is
   * followed by ` OR ` and the text ends there.
   */
  lemma RepeatedLastSynonymLeavesOpen(key: string, term: string, synonyms: seq<string>)
    requires |synonyms| >= 2 && synonyms[|synonyms| - 1] in synonyms[..|synonyms| - 1]
    ensures EndsWith(Alternatives(key, term, synonyms), " OR ")
  {
    var n := |synonyms|;
    EndsWithOr(key, synonyms, synonyms);
    var t := SynonymsText(key, synonyms, synonyms);
    var a := Alternatives(key, term, synonyms);
    assert a[|a| - |t|..] == t;
    assert a[|a| - 4..] == t[|t| - 4..];
  }

  lemma {:induction false} EndsWithOr(key: string, all: seq<string>, rest: seq<string>)
    requires rest != [] && IndexOfItem(all, rest[|rest| - 1]) != |all| - 1
    ensures EndsWith(SynonymsText(key, all, rest), " OR ")
    decreases |rest|
  {
    var head := Qualified(key, rest[0]) + Closer(all, rest[0]);
    var u := SynonymsText(key, all, rest[1..]);
    assert SynonymsText(key, all, rest) == head + u;
    if |rest| == 1 {
      assert u == [];
      assert head + u == Qualified(key, rest[0]) + " OR ";
      SuffixOfSuffix(Qualified(key, rest[0]), " OR ", " OR ");
    } else {
      assert rest[1..][|rest[1..]| - 1] == rest[|rest| - 1];
      EndsWithOr(key, all, rest[1..]);
      SuffixOfSuffix(head, u, " OR ");
    }
  }

  /** A suffix of a suffix is a suffix. */
  lemma SuffixOfSuffix<T>(v: seq<T>, u: seq<T>, p: seq<T>)
    requires |p| <= |u| && u[|u| - |p|..] == p
    ensures |p| <= |v + u| && (v + u)[|v + u| - |p|..] == p
  {
    assert (v + u)[|v + u| - |p|..] == u[|u| - |p|..];
  }

  /** The inner loop: the string builder is filled synonym by synonym. */
  method BuildAlternatives(key: string, term: string, synonyms: seq<string>) returns (text: string)
    ensures text == Alternatives(key, term, synonyms)
  {
    text := "(" + key + ":" + term + " OR ";
    assert synonyms[0..] == synonyms;
    for i := 0 to |synonyms|
      invariant text + SynonymsText(key, synonyms, synonyms[i..]) == Alternatives(key, term, synonyms)
    {
      var piece := key + ":" + synonyms[i] + Closer(synonyms, synonyms[i]);
      SynonymsTextStep(key, synonyms, i);
      Assoc(text, piece, SynonymsText(key, synonyms, synonyms[i + 1..]));
      text := text + piece;
    }
  }

  /** The text for the synonyms from `i` on starts with the one at `i`. */
  lemma SynonymsTextStep(key: string, all: seq<string>, i: nat)
    requires i < |all|
    ensures SynonymsText(key, all, all[i..]) == key + ":" + all[i] + Closer(all, all[i]) + SynonymsText(key, all, all[i + 1..])
  {
    assert all[i..][0] == all[i] && all[i..][1..] == all[i + 1..];
  }

  /** Concatenation is associative. */
  lemma Assoc<T>(a: seq<T>, b: seq<T>, c: seq<T>)
    ensures a + (b + c) == a + b + c
  {
    assert |a + (b + c)| == |a + b + c|;
  }

  // ---------------------------------------------------------------------------
  // The rewrite of a whole query
  // ---------------------------------------------------------------------------

  /** The term of the part has synonyms to offer. */
  predicate HasSynonyms(m: map<string, seq<string>>, term: string) {
    term in m && m[term] != []
  }

  /**
   * The rewrite from part `parts[0]` on, with the `key:term` texts already
   * substituted in `done` and the query rewritten so far in `q`.
   */
  function RewriteParts(m: map<string, seq<string>>, parts: seq<string>, done: set<string>, q: string): Result<string>
    decreases |parts|
  {
    if parts == [] then Ok(q)
    else match Split1(Clean(parts[0]))
      case Thrown(f) => Thrown(f)
      case Ok(ft) =>
        var kt := Qualified(ft.key, ft.term);
        if HasSynonyms(m, ft.term) && kt !in done then
          RewriteParts(m, parts[1..], done + {kt}, Replace(q, kt, Alternatives(ft.key, ft.term, m[ft.term])))
        else
          RewriteParts(m, parts[1..], done, q)
  }

  /** The parts of the query as `split("AND|OR|NOT")` cuts it. */
  function Parts(query: string): seq<string> {
    Split(query, Operators)
  }

  /** What `modifiyQuery` returns or throws. */
  function Rewrite(m: map<string, seq<string>>, query: string): Result<string> {
    RewriteParts(m, Parts(query), {}, query)
  }

  /** `QueryExtender.modifiyQuery`. */
  method ModifyQuery(m: map<string, seq<string>>, query: string) returns (r: Result<string>)
    ensures r == Rewrite(m, query)
  {
    var parts := Split(query, Operators);
    var done: set<string> := {};
    var modified := query;
    for i := 0 to |parts|
      invariant RewriteParts(m, parts[i..], done, modified) == Rewrite(m, query)
    {
      assert parts[i..][1..] == parts[i + 1..];
      var cleaned := Clean(parts[i]);
      var ft := Split1(cleaned);
      if ft.Thrown? {
        return Thrown(ft.failure);
      }
      var key, term := ft.value.key, ft.value.term;
      if term in m {
        var synonyms := m[term];
        if synonyms != [] {
          var text := BuildAlternatives(key, term, synonyms);
          if key + ":" + term !in done {
            modified := Replace(modified, key + ":" + term, text);
            done := done + {key + ":" + term};
          }
        }
      }
    }
    return Ok(modified);
  }

  // ---------------------------------------------------------------------------
  // Properties
  // ---------------------------------------------------------------------------

  /** Some part has no `:`. */
  predicate SomePartUnqualified(parts: seq<string>) {
    exists i :: 0 <= i < |parts| && ':' !in Clean(parts[i])
  }

  /** No part's term has synonyms to offer. */
  predicate NothingToExtend(m: map<string, seq<string>>, parts: seq<string>) {
    forall i :: 0 <= i < |parts| && ':' in Clean(parts[i]) ==>
      !HasSynonyms(m, Split1(Clean(parts[i])).value.term)
  }

  lemma SomePartUnqualifiedCons(parts: seq<string>)
    requires parts != []
    ensures SomePartUnqualified(parts) <==> ':' !in Clean(parts[0]) || SomePartUnqualified(parts[1..])
  {
    if SomePartUnqualified(parts[1..]) {
      var i :| 0 <= i < |parts[1..]| && ':' !in Clean(parts[1..][i]);
      assert parts[i + 1] == parts[1..][i];
    }
    if SomePartUnqualified(parts) && ':' in Clean(parts[0]) {
      var i :| 0 <= i < |parts| && ':' !in Clean(parts[i]);
      assert parts[1..][i - 1] == parts[i];
    }
  }

  /** The rewrite throws exactly when some part has no `:`, and then an index error. */
  lemma {:induction false} RewritePartsThrows(m: map<string, seq<string>>, parts: seq<string>, done: set<string>, q: string)
    ensures RewriteParts(m, parts, done, q).Thrown? <==> SomePartUnqualified(parts)
    ensures RewriteParts(m, parts, done, q).Thrown? ==> RewriteParts(m, parts, done, q).failure == IndexOutOfBounds
    decreases |parts|
  {
    if parts != [] {
      SomePartUnqualifiedCons(parts);
      var ft := Split1(Clean(parts[0]));
      if ft.Ok? {
        var key, term := ft.value.key, ft.value.term;
        var kt := Qualified(key, term);
        if HasSynonyms(m, term) && kt !in done {
          var q' := Replace(q, kt, Alternatives(key, term, m[term]));
          RewritePartsThrows(m, parts[1..], done + {kt}, q');
          assert RewriteParts(m, parts, done, q) == RewriteParts(m, parts[1..], done + {kt}, q');
        } else {
          RewritePartsThrows(m, parts[1..], done, q);
          assert RewriteParts(m, parts, done, q) == RewriteParts(m, parts[1..], done, q);
        }
      }
    }
  }

  /** A part's term without synonyms leaves the rest of the rewrite alone. */
  lemma {:induction false} RewritePartsUnchanged(m: map<string, seq<string>>, parts: seq<string>, done: set<string>, q: string)
    requires !SomePartUnqualified(parts) && NothingToExtend(m, parts)
    ensures RewriteParts(m, parts, done, q) == Ok(q)
    decreases |parts|
  {
    if parts != [] {
      assert ':' in Clean(parts[0]);
      assert !SomePartUnqualified(parts[1..]) by {
        forall i | 0 <= i < |parts[1..]| ensures ':' in Clean(parts[1..][i]) {
          assert parts[1..][i] == parts[i + 1];
        }
      }
      assert NothingToExtend(m, parts[1..]) by {
        forall i | 0 <= i < |parts[1..]| && ':' in Clean(parts[1..][i])
          ensures !HasSynonyms(m, Split1(Clean(parts[1..][i])).value.term)
        {
          assert parts[1..][i] == parts[i + 1];
        }
      }
      RewritePartsUnchanged(m, parts[1..], done, q);
    }
  }

  /**
   * `modifiyQuery` throws an index error exactly when some part of the query
   * has no `:`; when every part has one and no term has synonyms, the query
   * comes back unchanged.
   */
  lemma RewriteOutcome(m: map<string, seq<string>>, query: string)
    ensures Rewrite(m, query).Thrown? <==> SomePartUnqualified(Parts(query))
    ensures Rewrite(m, query).Thrown? ==> Rewrite(m, query).failure == IndexOutOfBounds
    ensures !SomePartUnqualified(Parts(query)) && NothingToExtend(m, Parts(query))
      ==> Rewrite(m, query) == Ok(query)
  {
    RewritePartsThrows(m, Parts(query), {}, query);
    if !SomePartUnqualified(Parts(query)) && NothingToExtend(m, Parts(query)) {
      RewritePartsUnchanged(m, Parts(query), {}, query);
    }
  }

  /** A part that substitutes nothing: its `key:term` was substituted already, or its term has no synonyms. */
  predicate Spent(m: map<string, seq<string>>, p: string, done: set<string>)
    requires ':' in Clean(p)
  {
    var ft := Split1(Clean(p)).value;
    Qualified(ft.key, ft.term) in done || !HasSynonyms(m, ft.term)
  }

  /**
   * A part whose `key:term` is spent changes nothing wherever it stands
   * among the later parts: the substituted set only grows on the way there.
   */
  lemma {:induction false} SpentPartSkipped(m: map<string, seq<string>>, mid: seq<string>, p: string, rest: seq<string>, done: set<string>, q: string)
    requires ':' in Clean(p) && Spent(m, p, done)
    ensures RewriteParts(m, mid + [p] + rest, done, q) == RewriteParts(m, mid + rest, done, q)
    decreases |mid|
  {
    if mid == [] {
      assert mid + [p] + rest == [p] + rest && ([p] + rest)[1..] == rest;
      assert mid + rest == rest;
    } else {
      var xs, ys := mid + [p] + rest, mid + rest;
      assert xs[0] == ys[0] == mid[0];
      assert xs[1..] == mid[1..] + [p] + rest && ys[1..] == mid[1..] + rest;
      match Split1(Clean(mid[0]))
      case Thrown(_) =>
      case Ok(ft) =>
        var kt := Qualified(ft.key, ft.term);
        if HasSynonyms(m, ft.term) && kt !in done {
          var q' := Replace(q, kt, Alternatives(ft.key, ft.term, m[ft.term]));
          SpentPartSkipped(m, mid[1..], p, rest, done + {kt}, q');
        } else {
          SpentPartSkipped(m, mid[1..], p, rest, done, q);
        }
    }
  }

  /**
   * A `key:term` is substituted once: a later part that cleans to the same
   * text changes nothing, however far on it stands and even if the first
   * substitution brought new copies of it.
   */
  lemma {:induction false} RepeatedPartSkipped(m: map<string, seq<string>>, pre: seq<string>, p: string, mid: seq<string>, p': string, rest: seq<string>, done: set<string>, q: string)
    requires Clean(p') == Clean(p)
    ensures RewriteParts(m, pre + [p] + mid + [p'] + rest, done, q)
         == RewriteParts(m, pre + [p] + mid + rest, done, q)
    decreases |pre|
  {
    var xs, ys := pre + [p] + mid + [p'] + rest, pre + [p] + mid + rest;
    if pre == [] {
      assert xs[0] == ys[0] == p;
      assert xs[1..] == mid + [p'] + rest && ys[1..] == mid + rest;
      match Split1(Clean(p))
      case Thrown(_) =>
      case Ok(ft) =>
        var kt := Qualified(ft.key, ft.term);
        if HasSynonyms(m, ft.term) && kt !in done {
          var q' := Replace(q, kt, Alternatives(ft.key, ft.term, m[ft.term]));
          SpentPartSkipped(m, mid, p', rest, done + {kt}, q');
        } else {
          SpentPartSkipped(m, mid, p', rest, done, q);
        }
    } else {
      assert xs[0] == ys[0] == pre[0];
      assert xs[1..] == pre[1..] + [p] + mid + [p'] + rest && ys[1..] == pre[1..] + [p] + mid + rest;
      match Split1(Clean(pre[0]))
      case Thrown(_) =>
      case Ok(ft) =>
        var kt := Qualified(ft.key, ft.term);
        if HasSynonyms(m, ft.term) && kt !in done {
          var q' := Replace(q, kt, Alternatives(ft.key, ft.term, m[ft.term]));
          RepeatedPartSkipped(m, pre[1..], p, mid, p', rest, done + {kt}, q');
        } else {
          RepeatedPartSkipped(m, pre[1..], p, mid, p', rest, done, q);
        }
    }
  }

  /**
   * `modifiyQuery` gives the same result when a part that cleans to the
   * same `key:term` as an earlier one is left out of the query's parts.
   */
  lemma RepeatedPartSkippedInQuery(m: map<string, seq<string>>, query: string, pre: seq<string>, p: string, mid: seq<string>, p': string, rest: seq<string>)
    requires Parts(query) == pre + [p] + mid + [p'] + rest && Clean(p') == Clean(p)
    ensures Rewrite(m, query) == RewriteParts(m, pre + [p] + mid + rest, {}, query)
  {
    RepeatedPartSkipped(m, pre, p, mid, p', rest, {}, query);
  }
}
