/** Optional values and the few string operations of JavaScript that the application relies on. */
module Text {

  /** A value that may be `undefined` or `null` in the original code. */
  datatype Option<+T> = None | Some(value: T)

  /** JavaScript truthiness of an optional string: defined and not the empty string. */
  predicate Truthy(s: Option<string>)
  {
    s.Some? && s.value != ""
  }

  /** `s || fallback` for an optional string. */
  function OrElse(s: Option<string>, fallback: string): (r: string)
  {
    if Truthy(s) then s.value else fallback
  }

  /** `String.prototype.startsWith`. */
  predicate StartsWith(s: string, prefix: string)
  {
    |prefix| <= |s| && s[..|prefix|] == prefix
  }

  /** `part` occurs in `s` at index `i`. */
  predicate OccursAt(s: string, part: string, i: nat)
  {
    i + |part| <= |s| && s[i..i + |part|] == part
  }

  /** `String.prototype.includes` (and `RegExp.prototype.test` for a pattern made of plain
      characters), searching from the left. */
  predicate Includes(s: string, part: string)
    decreases |s|
  {
    StartsWith(s, part) || (s != [] && Includes(s[1..], part))
  }

  /** `Includes` finds exactly the occurrences of `part`, at whatever index they stand. */
  lemma {:induction false} IncludesIffOccurs(s: string, part: string)
    ensures Includes(s, part) <==> exists i: nat :: OccursAt(s, part, i)
    decreases |s|
  {
    if StartsWith(s, part) {
      assert OccursAt(s, part, 0);
    } else if s != [] {
      IncludesIffOccurs(s[1..], part);
      if exists i: nat :: OccursAt(s, part, i) {
        var i: nat :| OccursAt(s, part, i);
        assert i != 0;
        assert s[1..][i - 1..i - 1 + |part|] == s[i..i + |part|];
        assert OccursAt(s[1..], part, i - 1);
      }
      if exists j: nat :: OccursAt(s[1..], part, j) {
        var j: nat :| OccursAt(s[1..], part, j);
        assert s[1..][j..j + |part|] == s[j + 1..j + 1 + |part|];
        assert OccursAt(s, part, j + 1);
      }
    }
  }

  /** A string that `part` cannot occur in because one of `part`'s characters is missing from it. */
  lemma {:induction false} NotIncludesMissingChar(s: string, part: string, k: nat)
    requires k < |part|
    requires part[k] !in s
    ensures !Includes(s, part)
  {
    IncludesIffOccurs(s, part);
    forall i: nat ensures !OccursAt(s, part, i) {
      if i + |part| <= |s| {
        assert s[i..i + |part|][k] == s[i + k];
      }
    }
  }

  /** `s.split(sep)[0]`: the text of `s` before its first `sep`, or all of `s` when there is none. */
  function FirstField(s: string, sep: char): (r: string)
    ensures StartsWith(s, r)
    ensures sep !in r
    ensures |r| == |s| || s[|r|] == sep
  {
    if s == [] || s[0] == sep then [] else [s[0]] + FirstField(s[1..], sep)
  }

  /** The first field of a joined list is the text before the first separator. */
  lemma {:induction false} FirstFieldOfJoin(field: string, sep: char, rest: string)
    requires sep !in field
    ensures FirstField(field + [sep] + rest, sep) == field
    decreases |field|
  {
    var s := field + [sep] + rest;
    if field != [] {
      assert s[0] == field[0] && field[0] in field;
      assert s[1..] == field[1..] + [sep] + rest;
      FirstFieldOfJoin(field[1..], sep, rest);
      assert [field[0]] + field[1..] == field;
    }
  }

  /** Code-point lexicographic order on strings ("a" before "ab" before "b"). */
  predicate LexLe(a: string, b: string)
  {
    a == [] || (b != [] && (a[0] < b[0] || (a[0] == b[0] && LexLe(a[1..], b[1..]))))
  }

  lemma {:induction false} LexLeTotal(a: string, b: string)
    ensures LexLe(a, b) || LexLe(b, a)
  {
    if a != [] && b != [] && a[0] == b[0] {
      LexLeTotal(a[1..], b[1..]);
    }
  }

  lemma {:induction false} LexLeTransitive(a: string, b: string, c: string)
    requires LexLe(a, b) && LexLe(b, c)
    ensures LexLe(a, c)
  {
    if a != [] && b != [] && c != [] && a[0] == b[0] && b[0] == c[0] {
      LexLeTransitive(a[1..], b[1..], c[1..]);
    }
  }
}
