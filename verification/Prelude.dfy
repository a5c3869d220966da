/** Small vocabulary shared by every other module. */
module Prelude {

  datatype Option<+T> = None | Some(value: T)

  /** The last `n` elements of `s`, oldest first; all of `s` when it is shorter. */
  function LastN<T>(s: seq<T>, n: nat): (r: seq<T>)
    ensures |r| == if |s| <= n then |s| else n
  {
    if |s| <= n then s else s[|s| - n..]
  }

  /** Appending one element to a window that is then cut to `n` again gives the window of the longer history. */
  lemma LastNPush<T>(s: seq<T>, x: T, n: nat)
    requires n >= 1
    ensures LastN(s + [x], n) == LastN(LastN(s, n) + [x], n)
    ensures LastN(s + [x], n) == if |s| < n then LastN(s, n) + [x] else LastN(s, n)[1..] + [x]
  {
    if |s| >= n {
      var w := LastN(s, n);
      DropWithin(s, [x], |s| + 1 - n);
      DropWithin(w, [x], 1);
      assert w[1..] == s[|s| + 1 - n..];
    }
  }

  /** A short window of a long window is the short window of the whole history. */
  lemma LastNOfLastN<T>(s: seq<T>, big: nat, small: nat)
    requires small <= big
    ensures LastN(LastN(s, big), small) == LastN(s, small)
  {
  }

  function Reverse<T>(s: seq<T>): (r: seq<T>)
    ensures |r| == |s|
    ensures forall i :: 0 <= i < |s| ==> r[i] == s[|s| - 1 - i]
  {
    if s == [] then [] else Reverse(s[1..]) + [s[0]]
  }

  /** Concatenation of a list of sequences. */
  function Concat<T>(ss: seq<seq<T>>): seq<T> {
    if ss == [] then [] else ss[0] + Concat(ss[1..])
  }

  lemma ConcatAssoc<T>(a: seq<T>, b: seq<T>, c: seq<T>)
    ensures (a + b) + c == a + (b + c)
  {
  }

  lemma ConcatEmpty<T>(s: seq<T>)
    ensures s + [] == s && [] + s == s
  {
  }

  lemma DropNoneOrAll<T>(s: seq<T>)
    ensures s[0..] == s && s[|s|..] == [] && s[..|s|] == s
  {
  }

  lemma ConcatParts<T>(a: seq<T>, b: seq<T>)
    ensures (a + b)[..|a|] == a && (a + b)[|a|..] == b
  {
  }

  /** Dropping a prefix that lies within the first part leaves the second part in place. */
  lemma DropWithin<T>(a: seq<T>, b: seq<T>, n: nat)
    requires n <= |a|
    ensures (a + b)[n..] == a[n..] + b && (a + b)[..n] == a[..n]
  {
  }

  lemma HeadAndLast<T>(s: seq<T>)
    requires s != []
    ensures s == s[..|s| - 1] + [s[|s| - 1]] && s == [s[0]] + s[1..]
  {
  }

  lemma PrefixRest<T>(a: seq<T>, b: seq<T>)
    requires a <= b
    ensures b == a + b[|a|..]
  {
  }

  lemma InitOfAppend<T>(a: seq<T>, b: seq<T>)
    requires b != []
    ensures |a + b| > 0
    ensures (a + b)[..|a + b| - 1] == a + b[..|b| - 1] && (a + b)[|a + b| - 1] == b[|b| - 1]
  {
  }

  function Map<A, B>(f: A -> B, s: seq<A>): (r: seq<B>)
    ensures |r| == |s|
    ensures forall i :: 0 <= i < |s| ==> r[i] == f(s[i])
  {
    if s == [] then [] else [f(s[0])] + Map(f, s[1..])
  }

  /** No element occurs twice. */
  predicate Distinct<T(==)>(s: seq<T>) {
    forall i, j :: 0 <= i < j < |s| ==> s[i] != s[j]
  }

  predicate StartsWith(s: string, prefix: string) {
    |prefix| <= |s| && s[..|prefix|] == prefix
  }
}
