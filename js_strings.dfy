/**
 * The three JavaScript string built-ins the filter relies on:
 * `String.prototype.toLowerCase` (restricted to ASCII letters),
 * `String.prototype.includes` and `Array.prototype.join` on strings.
 */
module JsStrings {

  predicate IsUpper(ch: char) {
    'A' <= ch <= 'Z'
  }

  /** Lower-cases one character; only the ASCII letters A-Z change. */
  function LowerChar(ch: char): (r: char)
    ensures !IsUpper(r)
    ensures !IsUpper(ch) ==> r == ch
  {
    if IsUpper(ch) then (ch as int + 32) as char else ch
  }

  /** `s.toLowerCase()`: same length, no upper-case letter left. */
  function Lower(s: string): (r: string)
    ensures |r| == |s|
    ensures forall i :: 0 <= i < |r| ==> !IsUpper(r[i])
  {
    seq(|s|, i requires 0 <= i < |s| => LowerChar(s[i]))
  }

  predicate StartsWith(s: string, prefix: string) {
    |prefix| <= |s| && s[..|prefix|] == prefix
  }

  /** `sub` occurs in `s` starting at index `i`. */
  predicate OccursAt(s: string, sub: string, i: int) {
    0 <= i && i + |sub| <= |s| && s[i..i + |sub|] == sub
  }

  /** `s.includes(sub)`: the search that tries every start position in turn. */
  predicate Includes(s: string, sub: string)
    decreases |s|
  {
    StartsWith(s, sub) || (s != [] && Includes(s[1..], sub))
  }

  /** `includes` holds exactly when `sub` occurs at some index of `s`. */
  lemma {:induction false} IncludesIff(s: string, sub: string)
    ensures Includes(s, sub) <==> exists i :: OccursAt(s, sub, i)
    decreases |s|
  {
    if Includes(s, sub) {
      if StartsWith(s, sub) {
        assert OccursAt(s, sub, 0);
      } else {
        IncludesIff(s[1..], sub);
        var i :| OccursAt(s[1..], sub, i);
        assert s[1..][i..i + |sub|] == s[i + 1..i + 1 + |sub|];
        assert OccursAt(s, sub, i + 1);
      }
    }
    if exists i :: OccursAt(s, sub, i) {
      var i :| OccursAt(s, sub, i);
      if i == 0 {
        assert StartsWith(s, sub);
      } else {
        assert s[1..][i - 1..i - 1 + |sub|] == s[i..i + |sub|];
        assert OccursAt(s[1..], sub, i - 1);
        IncludesIff(s[1..], sub);
      }
    }
  }

  /** `includes` survives text appended on either side. */
  lemma IncludesInConcat(a: string, b: string, sub: string)
    ensures Includes(a, sub) ==> Includes(a + b, sub)
    ensures Includes(b, sub) ==> Includes(a + b, sub)
  {
    IncludesIff(a, sub);
    IncludesIff(b, sub);
    IncludesIff(a + b, sub);
    if Includes(a, sub) {
      var i :| OccursAt(a, sub, i);
      assert (a + b)[i..i + |sub|] == a[i..i + |sub|];
      assert OccursAt(a + b, sub, i);
    }
    if Includes(b, sub) {
      var i :| OccursAt(b, sub, i);
      assert (a + b)[|a| + i..|a| + i + |sub|] == b[i..i + |sub|];
      assert OccursAt(a + b, sub, |a| + i);
    }
  }

  /** Every character of an included string is a character of the including one. */
  lemma IncludesChars(s: string, sub: string, k: int)
    requires Includes(s, sub)
    requires 0 <= k < |sub|
    ensures sub[k] in s
  {
    IncludesIff(s, sub);
    var i :| OccursAt(s, sub, i);
    assert sub[k] == s[i + k];
  }

  /** `parts.join(sep)`. */
  function Join(parts: seq<string>, sep: string): string
    decreases |parts|
  {
    if |parts| == 0 then ""
    else if |parts| == 1 then parts[0]
    else parts[0] + sep + Join(parts[1..], sep)
  }

  /** Each part can be found in the joined string. */
  lemma {:induction false} JoinIncludesPart(parts: seq<string>, sep: string, k: int)
    requires 0 <= k < |parts|
    ensures Includes(Join(parts, sep), parts[k])
    decreases |parts|
  {
    if |parts| == 1 {
      assert Join(parts, sep) == parts[0];
    } else if k == 0 {
      IncludesInConcat(parts[0], sep + Join(parts[1..], sep), parts[0]);
      assert Join(parts, sep) == parts[0] + (sep + Join(parts[1..], sep));
    } else {
      JoinIncludesPart(parts[1..], sep, k - 1);
      IncludesInConcat(parts[0] + sep, Join(parts[1..], sep), parts[k]);
    }
  }

  /** Joining empty parts leaves nothing but separator characters. */
  lemma {:induction false} JoinOfEmptyParts(parts: seq<string>, sep: string)
    requires forall k :: 0 <= k < |parts| ==> parts[k] == ""
    ensures forall ch :: ch in Join(parts, sep) ==> ch in sep
    decreases |parts|
  {
    if |parts| > 1 {
      JoinOfEmptyParts(parts[1..], sep);
      assert Join(parts, sep) == sep + Join(parts[1..], sep);
    }
  }
}
