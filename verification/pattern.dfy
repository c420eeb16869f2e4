/**
 * The fragment of regular expressions the KernelSU module-id pattern uses:
 * an anchored (`^...$`) sequence of bracket classes, each matched once or
 * with `+`.
 */
module Pattern {

  /** One range `lo-hi` inside a bracket class; a single character is `lo == hi`. */
  datatype CharRange = CharRange(lo: char, hi: char)

  /** A bracket class such as `[a-zA-Z0-9._-]`: the union of its ranges. */
  type CharClass = seq<CharRange>

  /** A class matched exactly once, or one or more times (`+`). */
  datatype Atom = Once(cls: CharClass) | OneOrMore(cls: CharClass)

  /** A pattern anchored at both ends: the atoms must cover the whole text. */
  type Regex = seq<Atom>

  predicate InClass(c: char, cls: CharClass) {
    exists i :: 0 <= i < |cls| && cls[i].lo <= c <= cls[i].hi
  }

  /** Every character of `s` belongs to `cls`. */
  predicate AllInClass(s: string, cls: CharClass) {
    forall i :: 0 <= i < |s| ==> InClass(s[i], cls)
  }

  /** Whether the whole of `s` matches `re`, trying every split a `+` allows. */
  predicate Matches(re: Regex, s: string)
    decreases |s|
  {
    if re == [] then s == []
    else if s == [] then false
    else
      match re[0]
      case Once(cls) => InClass(s[0], cls) && Matches(re[1..], s[1..])
      case OneOrMore(cls) =>
        InClass(s[0], cls) && (Matches(re[1..], s[1..]) || Matches(re, s[1..]))
  }

  /** A single `cls+` matches exactly the non-empty texts drawn from `cls`. */
  lemma {:induction false} OneOrMoreMatches(cls: CharClass, s: string)
    ensures Matches([OneOrMore(cls)], s) <==> s != [] && AllInClass(s, cls)
    decreases |s|
  {
    if s != [] {
      var re := [OneOrMore(cls)];
      assert re[1..] == [];
      OneOrMoreMatches(cls, s[1..]);
      if AllInClass(s, cls) {
        assert AllInClass(s[1..], cls) by {
          forall i | 0 <= i < |s[1..]| ensures InClass(s[1..][i], cls) {
            assert s[1..][i] == s[i + 1];
          }
        }
      }
      if Matches(re, s) {
        assert re[0] == OneOrMore(cls);
        assert InClass(s[0], cls) && (Matches(re[1..], s[1..]) || Matches(re, s[1..]));
        if s[1..] != [] {
          assert !Matches(re[1..], s[1..]);
          forall i | 0 <= i < |s| ensures InClass(s[i], cls) {
            if i > 0 {
              assert s[i] == s[1..][i - 1];
            }
          }
        }
      }
    }
  }

  /** Matching a leading `Once` atom consumes exactly the first character. */
  lemma OnceThen(cls: CharClass, rest: Regex, s: string)
    ensures Matches([Once(cls)] + rest, s)
        <==> s != [] && InClass(s[0], cls) && Matches(rest, s[1..])
  {
    var re := [Once(cls)] + rest;
    assert re[0] == Once(cls);
    assert re[1..] == rest;
  }
}
