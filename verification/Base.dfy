/** Small shared vocabulary. */
module Base {

  datatype Option<+T> = None | Some(value: T)

  /** The names of a list, as a set. */
  function SetOf<T>(xs: seq<T>): (r: set<T>) {
    set x | x in xs
  }

  ghost predicate Distinct<T>(xs: seq<T>) {
    forall i, j :: 0 <= i < j < |xs| ==> xs[i] != xs[j]
  }

  /** An iteration order of a hash map or hash set: it visits every key. */
  ghost predicate Covers<T(!new)>(order: seq<T>, keys: set<T>) {
    forall k :: k in keys ==> k in order
  }

  function UpperChar(c: char): char {
    if 'a' <= c <= 'z' then c - 'a' + 'A' else c
  }

  /** ASCII upper case, one character at a time. */
  function Upper(s: string): (r: string) {
    seq(|s|, i requires 0 <= i < |s| => UpperChar(s[i]))
  }
}
