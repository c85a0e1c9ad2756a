/** Value wrappers for the Python functions' return-or-raise behaviour. */
module Common {

  datatype Option<+T> = None | Some(value: T)

  /** A value, or the exception the Python code raises instead. */
  datatype Result<+T, +E> = Ok(value: T) | Err(error: E)

  /** Completion of a Python function that returns nothing useful, or the exception it raises. */
  datatype Outcome<+E> = Pass | Fail(error: E)

  /** A list that may have grown by one element at its end keeps every
      earlier element at its index, and its new element (if any) is the last. */
  lemma SnocIndex<T>(prev: seq<T>, all: seq<T>, last: Option<T>, k: int)
    requires all == if last.Some? then prev + [last.value] else prev
    requires 0 <= k < |all|
    ensures k < |prev| ==> all[k] == prev[k]
    ensures k >= |prev| ==> last == Some(all[k])
  {
  }

  /** Such a list holds every element of the shorter one, and the new one. */
  lemma SnocMember<T>(prev: seq<T>, all: seq<T>, last: Option<T>, x: T)
    requires all == if last.Some? then prev + [last.value] else prev
    requires x in prev || last == Some(x)
    ensures x in all
  {
  }

  /** Taking a non-empty prefix apart at its first element. */
  lemma HeadTail<T>(t: seq<T>, v: seq<T>)
    requires t != []
    ensures (t + v)[0] == t[0] && (t + v)[1..] == t[1..] + v && [t[0]] + (t[1..] + v) == t + v
  {
    assert t == [t[0]] + t[1..];
  }

  /** Dropping the first element of a non-empty prefix is taking a prefix of the tail. */
  lemma PrefixTail<T>(s: seq<T>, k: int)
    requires 0 < k <= |s|
    ensures s[..k][1..] == s[1..][..k - 1]
  {
  }
}
