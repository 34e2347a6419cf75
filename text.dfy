/** Strings as character sequences, and the few string operations the command line relies on. */
module Text {
  import opened Wrappers

  /** JavaScript's `s.endsWith(t)`: the last `|t|` characters of `s` are `t` (always true for `t == ""`). */
  predicate EndsWith(s: string, t: string) {
    |t| <= |s| && s[|s| - |t|..] == t
  }

  /** `t` occurs somewhere inside `s` (JavaScript's `s.includes(t)`). */
  ghost predicate Contains(s: string, t: string) {
    exists i :: OccursAt(s, t, i)
  }

  /** `t` occurs in `s` starting at index `i`. */
  predicate OccursAt(s: string, t: string, i: int) {
    0 <= i <= |s| - |t| && s[i..i + |t|] == t
  }

  /** JavaScript truthiness of an optional string: present and not empty. */
  predicate Truthy(s: Option<string>) {
    s.Some? && s.value != ""
  }

  /** What `code += chunk` adds for a read that may return `null`. */
  function Chunk(c: Option<string>): (r: string)
    ensures c.None? ==> r == ""
    ensures c.Some? ==> r == c.value
  {
    c.GetOr("")
  }

  /** All records written one after the other. */
  function Flatten(rs: seq<string>): (r: string)
    ensures |rs| == 1 ==> r == rs[0]
  {
    if rs == [] then "" else Flatten(rs[..|rs| - 1]) + rs[|rs| - 1]
  }

  lemma FlattenSnoc(rs: seq<string>, r: string)
    ensures Flatten(rs + [r]) == Flatten(rs) + r
  {
    assert (rs + [r])[..|rs|] == rs;
  }

  /** A string that ends with `t` contains `t`, whatever comes before it. */
  lemma EndsWithContains(s: string, t: string)
    ensures EndsWith(s, t) ==> Contains(s, t)
  {
    if EndsWith(s, t) {
      assert OccursAt(s, t, |s| - |t|);
    }
  }

  /** Extending a string on the right keeps every occurrence inside it. */
  lemma ContainsPrefix(a: string, b: string, t: string)
    ensures Contains(a, t) ==> Contains(a + b, t)
  {
    if Contains(a, t) {
      var i :| OccursAt(a, t, i);
      assert (a + b)[i..i + |t|] == a[i..i + |t|];
      assert OccursAt(a + b, t, i);
    }
  }
}
