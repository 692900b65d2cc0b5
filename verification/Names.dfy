/** Names of services, variables and connectors, which are compared without regard to case. */
module Names {
  type Name = string

  /** How a variable may be used. */
  datatype Access = ConstantAccess | ReadAccess | ReadWriteAccess

  function Lower(c: char): char { if 'A' <= c <= 'Z' then c - 'A' + 'a' else c }

  /** strcasecmp, as `EqualsCaseInsensitive` and the searches by name use it. */
  predicate SameName(a: Name, b: Name) { |a| == |b| && forall i :: 0 <= i < |a| ==> Lower(a[i]) == Lower(b[i]) }

  lemma OneLetter(c: char, d: char)
    ensures SameName([c], [d]) <==> Lower(c) == Lower(d)
  {
    assert [c][0] == c && [d][0] == d;
  }

  /** A letter and its other case, thirty-two apart, are the same; nothing else is. */
  lemma SameLetter(c: char, d: char)
    ensures SameName([c], [d]) <==>
              || c == d
              || ('A' <= c <= 'Z' && d as int == c as int + 0x20) || ('A' <= d <= 'Z' && c as int == d as int + 0x20)
  {
    OneLetter(c, d);
    hide SameName;
  }

  /** Names are the same if they are letter by letter. */
  lemma SameLetters(a: Name, b: Name)
    ensures SameName(a, b) <==> |a| == |b| && forall i :: 0 <= i < |a| ==> SameName([a[i]], [b[i]])
  {
    if |a| == |b| {
      forall i | 0 <= i < |a|
        ensures SameName([a[i]], [b[i]]) <==> Lower(a[i]) == Lower(b[i])
      {
        OneLetter(a[i], b[i]);
      }
    }
    hide Lower;
  }
}
