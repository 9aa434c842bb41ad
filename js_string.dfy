/**
 * The few JavaScript string operations the server relies on: truthiness of
 * an optional string, `toLowerCase` (ASCII only) and `includes`.
 */
module JsString {
  import opened Wrappers

  /** JavaScript truthiness of an optional string: absent, null and "" are falsy. */
  predicate Truthy(v: Option<string>) {
    v.Some? && v.value != ""
  }

  /** `toLowerCase` on one character, restricted to the ASCII letters. */
  function LowerChar(c: char): char {
    if 'A' <= c <= 'Z' then (c as int + 32) as char else c
  }

  /** `toLowerCase`: every character lower-cased, the length unchanged. */
  function Lower(s: string): (r: string)
    ensures |r| == |s|
  {
    if s == [] then [] else [LowerChar(s[0])] + Lower(s[1..])
  }

  /** Each character is lower-cased on its own. */
  lemma {:induction false} LowerAt(s: string)
    ensures forall i :: 0 <= i < |s| ==> Lower(s)[i] == LowerChar(s[i])
    decreases |s|
  {
    if s != [] {
      LowerAt(s[1..]);
      assert forall i :: 1 <= i < |s| ==> Lower(s)[i] == Lower(s[1..])[i - 1];
    }
  }

  /** Lower-casing twice is lower-casing once. */
  lemma LowerIdempotent(s: string)
    ensures Lower(Lower(s)) == Lower(s)
  {
    LowerAt(s);
    LowerAt(Lower(s));
  }

  /** A string with no upper-case ASCII letter is its own lower-case form. */
  lemma LowerOfLowercase(s: string)
    requires forall i :: 0 <= i < |s| ==> !('A' <= s[i] <= 'Z')
    ensures Lower(s) == s
  {
    LowerAt(s);
  }

  /** `term` stands in `s` at position `i`. */
  predicate OccursAt(s: string, term: string, i: int) {
    0 <= i && i + |term| <= |s| && s[i..i + |term|] == term
  }

  /** `s.includes(term)`: scan for a position where `term` is a prefix. */
  function Includes(s: string, term: string): bool
    decreases |s|
  {
    term <= s || (s != [] && Includes(s[1..], term))
  }

  /** The scan finds `term` exactly when it occurs somewhere in `s`. */
  lemma {:induction false} IncludesIff(s: string, term: string)
    ensures Includes(s, term) <==> exists i :: OccursAt(s, term, i)
    decreases |s|
  {
    if s == [] {
      if term == [] {
        assert OccursAt(s, term, 0);
      }
    } else {
      IncludesIff(s[1..], term);
      if term <= s {
        assert OccursAt(s, term, 0);
      }
      if exists i :: OccursAt(s[1..], term, i) {
        var i :| OccursAt(s[1..], term, i);
        assert s[i + 1..i + 1 + |term|] == s[1..][i..i + |term|];
        assert OccursAt(s, term, i + 1);
      }
      if exists i :: OccursAt(s, term, i) {
        var i :| OccursAt(s, term, i);
        if i == 0 {
          assert term <= s;
        } else {
          assert s[1..][i - 1..i - 1 + |term|] == s[i..i + |term|];
          assert OccursAt(s[1..], term, i - 1);
        }
      }
    }
  }

  /** The empty term occurs in every string, as with `"abc".includes("")`. */
  lemma IncludesEmpty(s: string)
    ensures Includes(s, "")
  {
  }
}
