/** Small facts about sequences, proved where nothing else is in scope. */
module Sequences {

  /** A non-empty sequence is its head followed by its tail. */
  lemma HeadTail<T>(s: seq<T>)
    requires s != []
    ensures [s[0]] + s[1..] == s
  {
  }

  /** The head and the tail of a sequence built from them. */
  lemma ConsParts<T>(x: T, s: seq<T>)
    ensures ([x] + s)[0] == x && ([x] + s)[1..] == s
  {
  }

  /** A sequence of two elements is the display of those two. */
  lemma PairOf<T>(f: seq<T>, x: T, y: T)
    requires |f| == 2 && f[0] == x && f[1] == y
    ensures f == [x, y]
  {
  }

  /** A sequence is its prefix of length `n` followed by the rest. */
  lemma SplitAt<T>(s: seq<T>, n: int)
    requires 0 <= n <= |s|
    ensures s == s[..n] + s[n..]
  {
  }

  /** Dropping from the tail is dropping one more from the whole. */
  lemma DropOfTail<T>(s: seq<T>, n: int)
    requires 1 <= n <= |s|
    ensures s[1..][n - 1..] == s[n..]
  {
  }

  /** Taking from all but the last element is taking from the whole. */
  lemma TakeOfInit<T>(s: seq<T>, n: int)
    requires s != [] && 0 <= n <= |s| - 1
    ensures s[..|s| - 1][..n] == s[..n]
  {
  }

  /** Taking from a suffix is slicing the whole. */
  lemma TakeOfDrop<T>(s: seq<T>, i: int, n: int)
    requires 0 <= i <= |s| && 0 <= n <= |s| - i
    ensures s[i..][..n] == s[i..i + n]
  {
  }

  /** Dropping from a suffix is dropping from the whole. */
  lemma DropOfDrop<T>(s: seq<T>, i: int, n: int)
    requires 0 <= i <= |s| && 0 <= n <= |s| - i
    ensures s[i..][n..] == s[i + n..]
  {
  }

  /** An element of a suffix is the element of the whole, shifted. */
  lemma DropIndex<T>(s: seq<T>, n: int, k: int)
    requires 0 <= n <= k < |s|
    ensures s[n..][k - n] == s[k]
  {
  }

  /** Regrouping a concatenation of four around its first part, and dropping that part. */
  lemma Regroup<T>(h: seq<T>, a: seq<T>, b: seq<T>, c: seq<T>)
    ensures h + a + b + c == h + (a + b + c)
    ensures (h + (a + b + c))[|h|..] == a + b + c
  {
  }

  /** Appending the head and then the tail is appending the whole. */
  lemma AppendHeadTail<T>(cur: seq<T>, s: seq<T>)
    requires s != []
    ensures cur + [s[0]] + s[1..] == cur + s
  {
    HeadTail(s);
  }
}
