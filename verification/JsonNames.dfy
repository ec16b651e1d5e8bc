/**
 How Go's encoding/json matches object keys to struct fields: an exact name first, otherwise any
 name that folds to the same letters.
 */
module JsonNames {

  /** ASCII letters fold to upper case; two letters outside ASCII fold into it. */
  function FoldChar(c: char): char {
    if 'a' <= c <= 'z' then ((c as int) - 32) as char
    else if c == '\U{017F}' then 'S'
    else if c == '\U{212A}' then 'K'
    else c
  }

  /** `c` is a lower-case letter and `d` its upper case, or `c` is the long s or the Kelvin sign and `d` a letter s or k. */
  ghost predicate FoldsTo(c: char, d: char) {
    || ('a' <= c <= 'z' && 'A' <= d <= 'Z' && c as int - 'a' as int == d as int - 'A' as int)
    || (c == '\U{017F}' && d in {'s', 'S'})
    || (c == '\U{212A}' && d in {'k', 'K'})
  }

  /** Two characters fold together exactly if they are equal or one of them folds to the other. */
  lemma FoldTogetherIff(c: char, d: char)
    ensures FoldChar(c) == FoldChar(d) <==> c == d || FoldsTo(c, d) || FoldsTo(d, c)
  {
    if 'a' <= c <= 'z' {
      assert FoldChar(c) as int == c as int - 32;
    }
    if 'a' <= d <= 'z' {
      assert FoldChar(d) as int == d as int - 32;
    }
  }

  function Fold(s: string): (r: string)
    ensures |r| == |s|
  {
    seq(|s|, i requires 0 <= i < |s| => FoldChar(s[i]))
  }

  /** Keys match letter by letter. */
  lemma MatchesIff(key: string, name: string)
    ensures Matches(key, name) <==>
              |key| == |name| && forall i :: 0 <= i < |key| ==> key[i] == name[i] || FoldsTo(key[i], name[i]) || FoldsTo(name[i], key[i])
  {
    if |key| == |name| {
      forall i | 0 <= i < |key|
        ensures Fold(key)[i] == Fold(name)[i] <==> key[i] == name[i] || FoldsTo(key[i], name[i]) || FoldsTo(name[i], key[i])
      {
        FoldTogetherIff(key[i], name[i]);
      }
    }
  }

  /** The decoder takes `key` for the field called `name`. */
  predicate Matches(key: string, name: string) {
    Fold(key) == Fold(name)
  }
}
