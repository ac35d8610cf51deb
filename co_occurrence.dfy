/**
 * An ordered pair of adjacent tokens, the key under which the bigram counter
 * stores its pair counts. Two pairs are the same key when their left tokens
 * agree and their right tokens agree; the `score` field is filled in later
 * and plays no part in equality or hashing.
 */
module TokenPairs {
  import opened JavaLang

  /** `score` stands for the pair's float score; nothing here computes with it. */
  datatype CoOccurrence<T> = CoOccurrence(leftToken: T, rightToken: T, score: real)
  {
    function LeftToken(): (t: T)
      ensures t == leftToken
    {
      leftToken
    }

    function RightToken(): (t: T)
      ensures t == rightToken
    {
      rightToken
    }
  }

  /** The argument of `equals`: null, another pair, or an object of some other class. */
  datatype JavaObject<T> = Null | Pair(pair: CoOccurrence<T>) | Other

  /** The constructor: the two tokens, and the score field at its default. */
  function New<T>(leftToken: T, rightToken: T): (p: CoOccurrence<T>)
    ensures p.score == 0.0
  {
    CoOccurrence(leftToken, rightToken, 0.0)
  }

  /** The getters hand back exactly what the constructor was given. */
  lemma GettersReturnArguments<T>(a: T, b: T)
    ensures New(a, b).LeftToken() == a && New(a, b).RightToken() == b
  {
  }

  /** `equals`: false for null and for any other class, else both tokens compared in order. */
  function Equals<T(==)>(self: CoOccurrence<T>, obj: JavaObject<T>): (r: bool)
    ensures obj.Null? || obj.Other? ==> !r
  {
    match obj
    case Null => false
    case Other => false
    case Pair(other) => other.leftToken == self.leftToken && other.rightToken == self.rightToken
  }

  /** Two pairs are equal exactly when they agree token by token, whatever their scores. */
  lemma EqualsTokenwise<T>(p: CoOccurrence<T>, q: CoOccurrence<T>)
    ensures Equals(p, Pair(q)) <==> New(p.leftToken, p.rightToken) == New(q.leftToken, q.rightToken)
  {
  }

  /** The pair is ordered: swapping two different tokens gives a different key. */
  lemma EqualsOrdered<T>(a: T, b: T)
    requires a != b
    ensures !Equals(New(a, b), Pair(New(b, a)))
  {
  }

  /** `equals` is an equivalence on pairs. */
  lemma EqualsEquivalence<T>(p: CoOccurrence<T>, q: CoOccurrence<T>, s: CoOccurrence<T>)
    ensures Equals(p, Pair(p))
    ensures Equals(p, Pair(q)) ==> Equals(q, Pair(p))
    ensures Equals(p, Pair(q)) && Equals(q, Pair(s)) ==> Equals(p, Pair(s))
  {
  }

  /**
   * `hashCode`: the sum of the two tokens' hash codes in 32-bit arithmetic.
   * `hash` is the tokens' own hash function, taken as a parameter.
   */
  function HashCode<T>(p: CoOccurrence<T>, hash: T -> int): (h: int)
    ensures IsInt(h)
    ensures (h - hash(p.leftToken) - hash(p.rightToken)) % 0x1_0000_0000 == 0
  {
    Wrap32(hash(p.leftToken) + hash(p.rightToken))
  }

  /** Equal pairs hash alike, so the pair is a sound hash-map key. */
  lemma EqualPairsHashAlike<T>(p: CoOccurrence<T>, q: CoOccurrence<T>, hash: T -> int)
    requires Equals(p, Pair(q))
    ensures HashCode(p, hash) == HashCode(q, hash)
  {
  }

  /** The hash ignores order: a pair and its swap collide. */
  lemma SwappedPairsHashAlike<T>(a: T, b: T, hash: T -> int)
    ensures HashCode(New(a, b), hash) == HashCode(New(b, a), hash)
  {
    assert hash(a) + hash(b) == hash(b) + hash(a);
  }

  /** The score takes no part in `equals` or `hashCode`. */
  lemma ScoreIgnored<T>(p: CoOccurrence<T>, s: real, obj: JavaObject<T>, hash: T -> int)
    ensures Equals(p.(score := s), obj) == Equals(p, obj)
    ensures HashCode(p.(score := s), hash) == HashCode(p, hash)
    ensures Equals(p, Pair(p.(score := s)))
  {
  }
}
