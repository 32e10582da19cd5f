/** ASCII lowercasing (`toLower`) and substring search (`std::string::find`). */
module Text {
  import opened Wrappers

  predicate IsAsciiUpper(c: char) { 'A' <= c <= 'Z' }

  /** `::tolower` in the C locale: only 'A'..'Z' change. */
  function LowerChar(c: char): (r: char)
    ensures !IsAsciiUpper(r)
    ensures r != c <==> IsAsciiUpper(c)
    ensures IsAsciiUpper(c) ==> r as int == c as int + 32
  {
    if IsAsciiUpper(c) then (c as int - 'A' as int + 'a' as int) as char else c
  }

  /** `toLower`: the copy of `s` with every character lowercased. */
  function ToLower(s: string): (r: string)
    ensures |r| == |s|
    ensures forall i :: 0 <= i < |r| ==> !IsAsciiUpper(r[i])
  {
    if s == [] then [] else [LowerChar(s[0])] + ToLower(s[1..])
  }

  /** Each character is mapped on its own: upper-case ASCII letters become
      their lower-case counterpart and every other character is kept. */
  lemma {:induction false} ToLowerAt(s: string, i: nat)
    requires i < |s|
    ensures ToLower(s)[i] == LowerChar(s[i])
    ensures ToLower(s)[i] != s[i] <==> IsAsciiUpper(s[i])
    ensures IsAsciiUpper(s[i]) ==> 'a' <= ToLower(s)[i] <= 'z'
  {
    if i > 0 {
      ToLowerAt(s[1..], i - 1);
    }
  }

  /** A string is left unchanged exactly when it has no upper-case ASCII letter. */
  lemma ToLowerFixed(s: string)
    ensures ToLower(s) == s <==> forall i :: 0 <= i < |s| ==> !IsAsciiUpper(s[i])
  {
    if forall i :: 0 <= i < |s| ==> !IsAsciiUpper(s[i]) {
      forall i | 0 <= i < |s| ensures ToLower(s)[i] == s[i] {
        ToLowerAt(s, i);
      }
    }
  }

  /** Lowercasing twice is the same as lowercasing once. */
  lemma ToLowerIdempotent(s: string)
    ensures ToLower(ToLower(s)) == ToLower(s)
  {
    ToLowerFixed(ToLower(s));
  }

  /** `needle` occurs in `hay` starting at position `i`. */
  predicate OccursAt(hay: string, needle: string, i: nat)
  {
    i + |needle| <= |hay| && hay[i..i + |needle|] == needle
  }

  /** `hay.find(needle, i)`: the first position at or after `i` where `needle`
      occurs, or None for `npos`. */
  function FindFrom(hay: string, needle: string, i: nat): (r: Option<nat>)
    requires i <= |hay|
    ensures r.Some? ==> i <= r.value <= |hay| && OccursAt(hay, needle, r.value)
    ensures needle == [] ==> r == Some(i)
    decreases |hay| - i
  {
    if OccursAt(hay, needle, i) then Some(i)
    else if i == |hay| then None
    else FindFrom(hay, needle, i + 1)
  }

  /** `find` reports the first occurrence at or after `i`, and `npos` exactly
      when there is none. */
  lemma {:induction false} FindFromFirst(hay: string, needle: string, i: nat)
    requires i <= |hay|
    ensures FindFrom(hay, needle, i).Some? ==>
      var p := FindFrom(hay, needle, i).value;
      i <= p && OccursAt(hay, needle, p) && forall j :: i <= j < p ==> !OccursAt(hay, needle, j)
    ensures FindFrom(hay, needle, i).None? <==> forall j :: i <= j <= |hay| ==> !OccursAt(hay, needle, j)
    decreases |hay| - i
  {
    if !OccursAt(hay, needle, i) && i < |hay| {
      FindFromFirst(hay, needle, i + 1);
    }
  }

  /** `hay.find(needle)`, searching from the start. */
  function Find(hay: string, needle: string): (r: Option<nat>)
    ensures r.Some? ==> OccursAt(hay, needle, r.value)
    ensures needle == [] ==> r == Some(0)
  {
    FindFrom(hay, needle, 0)
  }

  /** `hay.find(needle) != npos`. */
  predicate Contains(hay: string, needle: string)
    ensures Contains(hay, needle) ==> |needle| <= |hay|
  {
    Find(hay, needle).Some?
  }

  /** `find` succeeds exactly when `needle` is a contiguous piece of `hay`;
      in particular the empty string is found in every string. */
  lemma ContainsIsSubstring(hay: string, needle: string)
    ensures Contains(hay, needle) <==> exists i :: 0 <= i <= |hay| && OccursAt(hay, needle, i)
    ensures needle == [] ==> Contains(hay, needle)
  {
    FindFromFirst(hay, needle, 0);
    if needle == [] {
      assert OccursAt(hay, needle, 0);
    }
  }
}
