/**
 * Field extraction from an N1MM Logger datagram (`extract_xml_field`).
 *
 * The source searches the text with the regular expression
 * `<f>(.*?)</f>`: the leftmost place where an opening tag `<f>` is followed
 * by a closing tag `</f>`, taking the shortest capture; `.` does not match a
 * newline, so the capture never crosses one. An empty capture is reported as
 * absent. The search is written out here over `seq<char>`: for each start
 * position, the lazy scan for the closing tag, then the next position.
 */
module XmlField {
  import opened Wrappers
  import opened Text

  function OpenTag(name: string): string
  {
    "<" + name + ">"
  }

  function CloseTag(name: string): string
  {
    "</" + name + ">"
  }

  /** A closing tag starts at `j`, and no newline lies between `k` and `j`. */
  ghost predicate CloseAt(s: string, k: nat, j: nat, close: string)
  {
    k <= j && StartsAt(s, j, close) && forall p :: k <= p < j ==> s[p] != '\n'
  }

  /** An opening tag at `i` whose capture is closed at `j`, as `<f>(.*?)</f>` can match. */
  ghost predicate PairAt(s: string, i: nat, j: nat, open: string, close: string)
  {
    StartsAt(s, i, open) && CloseAt(s, i + |open|, j, close)
  }

  /** The match a regex search reports: leftmost start, then shortest capture. */
  ghost predicate LeftmostPair(s: string, i: nat, j: nat, open: string, close: string)
  {
    && PairAt(s, i, j, open, close)
    && forall i', j' :: PairAt(s, i', j', open, close) ==> i < i' || (i == i' && j <= j')
  }

  /** The lazy `(.*?)` scan: the first closing tag at or after `k`, unless a newline comes first. */
  function FindClose(s: string, k: nat, close: string): (r: Option<nat>)
    decreases |s| - k
    ensures r.Some? ==> k <= r.value && r.value + |close| <= |s|
  {
    if StartsAt(s, k, close) then Some(k)
    else if k >= |s| || s[k] == '\n' then None
    else FindClose(s, k + 1, close)
  }

  /** FindClose finds the nearest closing tag reachable without crossing a newline, and only that one. */
  lemma {:induction false} FindCloseSpec(s: string, k: nat, close: string)
    decreases |s| - k
    ensures var r := FindClose(s, k, close);
      && (r.Some? ==> CloseAt(s, k, r.value, close))
      && (r.Some? ==> forall j :: CloseAt(s, k, j, close) ==> r.value <= j)
      && (r.None? ==> forall j :: !CloseAt(s, k, j, close))
  {
    if !StartsAt(s, k, close) && k < |s| && s[k] != '\n' {
      FindCloseSpec(s, k + 1, close);
      assert forall j :: CloseAt(s, k, j, close) ==> CloseAt(s, k + 1, j, close);
    }
  }

  /** `re.search` from start position `i`: returns the start of the match and of its closing tag. */
  function SearchFrom(s: string, i: nat, open: string, close: string): (r: Option<(nat, nat)>)
    decreases |s| + 1 - i
    ensures r.Some? ==> i <= r.value.0 && r.value.0 + |open| <= r.value.1 <= |s|
  {
    if i > |s| then None
    else if StartsAt(s, i, open) && FindClose(s, i + |open|, close).Some? then
      Some((i, FindClose(s, i + |open|, close).value))
    else
      SearchFrom(s, i + 1, open, close)
  }

  /** SearchFrom reports the leftmost match at or after `i`, with its shortest capture, or None when there is none. */
  lemma {:induction false} SearchFromSpec(s: string, i: nat, open: string, close: string)
    decreases |s| + 1 - i
    ensures var r := SearchFrom(s, i, open, close);
      && (r.Some? ==> i <= r.value.0 && LeftmostPairFrom(s, i, r.value.0, r.value.1, open, close))
      && (r.None? ==> forall i', j' :: i <= i' ==> !PairAt(s, i', j', open, close))
  {
    if i <= |s| {
      if StartsAt(s, i, open) && FindClose(s, i + |open|, close).Some? {
        FoundAt(s, i, open, close);
      } else {
        SearchFromSpec(s, i + 1, open, close);
        NoPairAt(s, i, open, close);
      }
    }
  }

  /** When the scan at `i` succeeds, its match is the leftmost-shortest one from `i` on. */
  lemma FoundAt(s: string, i: nat, open: string, close: string)
    requires StartsAt(s, i, open) && FindClose(s, i + |open|, close).Some?
    ensures LeftmostPairFrom(s, i, i, FindClose(s, i + |open|, close).value, open, close)
  {
    FindCloseSpec(s, i + |open|, close);
  }

  /** When the scan at `i` fails, no match starts at `i`. */
  lemma NoPairAt(s: string, i: nat, open: string, close: string)
    requires !(StartsAt(s, i, open) && FindClose(s, i + |open|, close).Some?)
    ensures forall j :: !PairAt(s, i, j, open, close)
  {
    FindCloseSpec(s, i + |open|, close);
  }

  /** Like LeftmostPair, for matches that start at `from` or later. */
  ghost predicate LeftmostPairFrom(s: string, from: nat, i: nat, j: nat, open: string, close: string)
  {
    && PairAt(s, i, j, open, close)
    && forall i', j' :: from <= i' && PairAt(s, i', j', open, close) ==> i < i' || (i == i' && j <= j')
  }

  /**
   * `extract_xml_field(xml, name)`: the non-empty capture of the leftmost
   * `<name>…</name>` match, or None when there is no match or its capture is
   * empty. The field name is used as literal text.
   */
  function ExtractField(xml: string, name: string): (r: Option<string>)
  {
    match SearchFrom(xml, 0, OpenTag(name), CloseTag(name))
    case None => None
    case Some((i, j)) =>
      var k := i + |OpenTag(name)|;
      if k == j then None else Some(xml[k..j])
  }

  /** The leftmost-shortest match, when there is one, is the one SearchFrom reports from position 0. */
  lemma SearchIsLeftmost(xml: string, o: string, c: string)
    ensures var r := SearchFrom(xml, 0, o, c);
      && (r.None? <==> forall i: nat, j: nat :: !PairAt(xml, i, j, o, c))
      && (r.Some? ==> LeftmostPair(xml, r.value.0, r.value.1, o, c))
      && (forall i: nat, j: nat :: LeftmostPair(xml, i, j, o, c) ==> r == Some((i, j)))
  {
    SearchFromSpec(xml, 0, o, c);
    var r := SearchFrom(xml, 0, o, c);
    if r.Some? {
      var (i, j) := r.value;
      assert LeftmostPair(xml, i, j, o, c);
      forall i': nat, j': nat | LeftmostPair(xml, i', j', o, c) ensures r == Some((i', j')) {
        LeftmostUnique(xml, i, j, i', j', o, c);
      }
    }
  }

  /**
   * `extract_xml_field` returns None exactly when no tag pair without a
   * newline in between exists, or when the leftmost one encloses nothing.
   */
  lemma ExtractFieldNone(xml: string, name: string)
    ensures var o, c := OpenTag(name), CloseTag(name);
      ExtractField(xml, name).None? <==>
        (forall i: nat, j: nat :: !PairAt(xml, i, j, o, c))
        || (exists i: nat, j: nat :: LeftmostPair(xml, i, j, o, c) && j == i + |o|)
  {
    var o, c := OpenTag(name), CloseTag(name);
    SearchIsLeftmost(xml, o, c);
    var r := SearchFrom(xml, 0, o, c);
    if r.Some? {
      var (i, j) := r.value;
      assert LeftmostPair(xml, i, j, o, c);
    }
  }

  /** Otherwise it returns the text enclosed by the leftmost pair. */
  lemma ExtractFieldValue(xml: string, name: string, i: nat, j: nat)
    requires LeftmostPair(xml, i, j, OpenTag(name), CloseTag(name)) && i + |OpenTag(name)| < j
    ensures ExtractField(xml, name) == Some(xml[i + |OpenTag(name)|..j])
  {
    SearchIsLeftmost(xml, OpenTag(name), CloseTag(name));
  }

  /** A returned value is non-empty and holds neither a newline nor the closing tag. */
  lemma ExtractFieldClean(xml: string, name: string)
    ensures ExtractField(xml, name).Some? ==>
      var v := ExtractField(xml, name).value;
      v != [] && '\n' !in v && !Contains(v, CloseTag(name))
  {
    var o, c := OpenTag(name), CloseTag(name);
    SearchIsLeftmost(xml, o, c);
    var r := SearchFrom(xml, 0, o, c);
    if r.Some? && r.value.0 + |o| < r.value.1 {
      CaptureClean(xml, r.value.0, r.value.1, o, c);
    }
  }

  /** There is at most one leftmost-shortest match. */
  lemma LeftmostUnique(s: string, i: nat, j: nat, i': nat, j': nat, open: string, close: string)
    requires LeftmostPair(s, i, j, open, close) && LeftmostPair(s, i', j', open, close)
    ensures i == i' && j == j'
  {
  }

  /** The capture of a leftmost-shortest match holds no newline and no closing tag. */
  lemma CaptureClean(s: string, i: nat, j: nat, open: string, close: string)
    requires LeftmostPair(s, i, j, open, close) && i + |open| < j && close != []
    ensures '\n' !in s[i + |open|..j] && !Contains(s[i + |open|..j], close)
  {
    var k := i + |open|;
    var v := s[k..j];
    assert forall p :: k <= p < j ==> s[p] != '\n';
    assert forall p :: 0 <= p < |v| ==> v[p] == s[k + p];
    if Contains(v, close) {
      var q: nat :| StartsAt(v, q, close);
      assert s[k + q..k + q + |close|] == v[q..q + |close|];
      assert PairAt(s, i, k + q, open, close);
    }
  }

  /**
   * A capture is the text up to the first closing tag: it never spans two
   * same-named fields, whatever the first value holds short of a newline or
   * the closing tag itself.
   */
  lemma ExtractFirstOfTwo(name: string, a: string, b: string)
    requires name != [] && a != [] && '<' !in name
    requires '\n' !in a && !Contains(a, CloseTag(name))
    ensures ExtractField(OpenTag(name) + a + CloseTag(name) + OpenTag(name) + b + CloseTag(name), name) == Some(a)
  {
    var o, c := OpenTag(name), CloseTag(name);
    var s := o + a + c + o + b + c;
    var j := |o| + |a|;
    assert s == o + a + c + (o + b + c);
    CloseTagShape(name);
    PairAtFront(o, a, c, o + b + c);
    ExtractFieldValue(s, name, 0, j);
    assert s[|o|..j] == a;
  }

  /** A closing tag starts with `<` and, for a name without `<`, holds no other. */
  lemma CloseTagShape(name: string)
    requires '<' !in name
    ensures var c := CloseTag(name); c != [] && c[0] == '<' && forall k :: 0 < k < |c| ==> c[k] != '<'
  {
    var c := CloseTag(name);
    forall k | 0 < k < |c| ensures c[k] != '<' {
      if 2 <= k < |c| - 1 {
        assert c[k] == name[k - 2];
      }
    }
  }

  /**
   * An opening tag, a capture without a newline or the closing tag, and the
   * closing tag, at the front of a text: the first match found.
   */
  lemma PairAtFront(o: string, a: string, c: string, rest: string)
    requires '\n' !in a && !Contains(a, c)
    requires c != [] && c[0] == '<' && forall k :: 0 < k < |c| ==> c[k] != '<'
    ensures LeftmostPair(o + a + c + rest, 0, |o| + |a|, o, c)
  {
    var s := o + a + c + rest;
    var t := a + c + rest;
    var j := |o| + |a|;
    assert s == o + t;
    assert s[j..j + |c|] == c;
    assert s[..|o|] == o;
    assert forall p :: |o| <= p < j ==> s[p] == a[p - |o|];
    forall j' | |o| <= j' < j ensures !StartsAt(s, j', c) {
      CloseNotBefore(a, c, rest, j' - |o|);
      if j' + |c| <= |s| {
        assert s[j'..j' + |c|] == t[j' - |o|..j' - |o| + |c|];
      }
    }
    assert forall i': nat, j': nat :: PairAt(s, i', j', o, c) ==> 0 < i' || (i' == 0 && j <= j');
  }

  /** No closing tag starts inside a capture that does not contain one, not even one overlapping the real closing tag. */
  lemma CloseNotBefore(a: string, c: string, rest: string, x: nat)
    requires !Contains(a, c) && x < |a|
    requires c != [] && c[0] == '<' && forall k :: 0 < k < |c| ==> c[k] != '<'
    ensures !StartsAt(a + c + rest, x, c)
  {
    var s := a + c + rest;
    if x + |c| <= |a| {
      assert s[x..x + |c|] == a[x..x + |c|];
      assert !StartsAt(a, x, c);
    } else if x + |c| <= |s| {
      assert s[|a|] == '<';
      assert s[x..x + |c|][|a| - x] == s[|a|];
    }
  }
}
