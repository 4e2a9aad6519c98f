/**
 * ADIF records as the relay writes them: each field is the token
 * `<name:N>value`, where N is the decimal character count of the value, the
 * tokens follow one another with no separator, and the record ends with
 * `<eor>`. Because every value is preceded by its length, a reader needs no
 * escaping; the decoder below reads a record the way an ADIF consumer does,
 * and the round trip shows that the printed lengths are right.
 */
module Adif {
  import opened Wrappers
  import opened Text

  datatype Field = Field(name: string, value: string)

  const EndOfRecord: string := "<eor>"

  /** `f"<{name}:{len(value)}>{value}"`. */
  function Token(f: Field): string
  {
    "<" + f.name + ":" + NatToDecimal(|f.value|) + ">" + f.value
  }

  /** The list of tokens the encoder appends, one per field. */
  function TokenList(fs: seq<Field>): (ts: seq<string>)
    ensures |ts| == |fs| && forall i :: 0 <= i < |fs| ==> ts[i] == Token(fs[i])
  {
    seq(|fs|, i requires 0 <= i < |fs| => Token(fs[i]))
  }

  /** Python's `''.join(parts)`. */
  function Join(parts: seq<string>): string
  {
    if parts == [] then "" else parts[0] + Join(parts[1..])
  }

  /** The text of a record: its tokens followed by the end-of-record marker. */
  function Render(fs: seq<Field>): string
  {
    Join(TokenList(fs) + [EndOfRecord])
  }

  /** Names an ADIF reader can find the end of: no colon inside. */
  predicate WellNamed(fs: seq<Field>)
  {
    forall i :: 0 <= i < |fs| ==> ':' !in fs[i].name
  }

  function Names(fs: seq<Field>): (ns: seq<string>)
    ensures |ns| == |fs| && forall i :: 0 <= i < |fs| ==> ns[i] == fs[i].name
  {
    seq(|fs|, i requires 0 <= i < |fs| => fs[i].name)
  }

  /** The first position at or after `from` that holds `c`. */
  function IndexOf(s: string, from: nat, c: char): (r: Option<nat>)
    decreases |s| - from
    ensures r.Some? ==> from <= r.value < |s| && s[r.value] == c
    ensures r.Some? ==> forall p :: from <= p < r.value ==> s[p] != c
    ensures r.None? ==> forall p :: from <= p < |s| ==> s[p] != c
  {
    if from >= |s| then None else if s[from] == c then Some(from) else IndexOf(s, from + 1, c)
  }

  /**
   * An ADIF reader for one token at the front of `s`: the name runs to the
   * first colon, the length to the next `>`, and the value is the next N
   * characters, whatever they are. Returns the field and where the token ends.
   */
  function ReadToken(s: string): (r: Option<(Field, nat)>)
    ensures r.Some? ==> 0 < r.value.1 <= |s|
  {
    if s == [] || s[0] != '<' then None
    else match IndexOf(s, 1, ':')
      case None => None
      case Some(c) =>
        match IndexOf(s, c + 1, '>')
        case None => None
        case Some(g) =>
          var digits := s[c + 1..g];
          if digits == [] || !AllDigits(digits) then None
          else
            var n := DecimalValue(digits);
            if g + 1 + n > |s| then None
            else Some((Field(s[1..c], s[g + 1..g + 1 + n]), g + 1 + n))
  }

  /** An ADIF reader for a whole record, up to the end-of-record marker. */
  function Decode(s: string): (r: Option<seq<Field>>)
    decreases |s|
  {
    if s == EndOfRecord then Some([])
    else match ReadToken(s)
      case None => None
      case Some((f, k)) =>
        match Decode(s[k..])
        case None => None
        case Some(rest) => Some([f] + rest)
  }

  lemma RenderCons(fs: seq<Field>)
    requires fs != []
    ensures Render(fs) == Token(fs[0]) + Render(fs[1..])
  {
    var parts := TokenList(fs) + [EndOfRecord];
    assert parts[1..] == TokenList(fs[1..]) + [EndOfRecord];
  }

  lemma IndexOfIs(s: string, from: nat, c: char, k: nat)
    requires from <= k < |s| && s[k] == c
    requires forall p :: from <= p < k ==> s[p] != c
    ensures IndexOf(s, from, c) == Some(k)
  {
  }

  lemma RenderEmpty()
    ensures Render([]) == EndOfRecord
  {
    assert TokenList([]) + [EndOfRecord] == [EndOfRecord];
    assert Join([EndOfRecord]) == EndOfRecord + Join([]);
  }

  /** Where the parts of a token stand in the text that starts with it. */
  lemma TokenLayout(f: Field, tail: string)
    ensures var s, d := Token(f) + tail, NatToDecimal(|f.value|);
      var c, g := 1 + |f.name|, 2 + |f.name| + |d|;
      && |s| == g + 1 + |f.value| + |tail|
      && s[0] == '<' && s[c] == ':' && s[g] == '>'
      && s[1..c] == f.name && s[c + 1..g] == d
      && s[g + 1..g + 1 + |f.value|] == f.value && s[g + 1 + |f.value|..] == tail
  {
    var d := NatToDecimal(|f.value|);
    var s := Token(f) + tail;
    assert s == (((("<" + f.name) + ":") + d) + ">") + (f.value + tail);
  }

  /** What ReadToken returns, given where the colon and the `>` are. */
  lemma ReadTokenAt(s: string, c: nat, g: nat)
    requires 0 < c < g < |s| && s[0] == '<' && s[c] == ':' && s[g] == '>'
    requires forall p :: 1 <= p < c ==> s[p] != ':'
    requires forall p :: c + 1 <= p < g ==> s[p] != '>'
    requires s[c + 1..g] != [] && AllDigits(s[c + 1..g])
    requires g + 1 + DecimalValue(s[c + 1..g]) <= |s|
    ensures var n := DecimalValue(s[c + 1..g]);
      ReadToken(s) == Some((Field(s[1..c], s[g + 1..g + 1 + n]), g + 1 + n))
  {
    IndexOfIs(s, 1, ':', c);
    IndexOfIs(s, c + 1, '>', g);
  }

  /** A reader takes back exactly the token the encoder wrote. */
  lemma ReadTokenOf(f: Field, tail: string)
    requires ':' !in f.name
    ensures ReadToken(Token(f) + tail) == Some((f, |Token(f)|))
  {
    var c := 1 + |f.name|;
    TokenScans(f, tail);
    DecimalOfNatToDecimal(|f.value|);
    ReadTokenAt(Token(f) + tail, c, c + 1 + |NatToDecimal(|f.value|)|);
  }

  /** The first colon of a token ends its name and the first `>` after it ends its length. */
  lemma TokenScans(f: Field, tail: string)
    requires ':' !in f.name
    ensures var s, d := Token(f) + tail, NatToDecimal(|f.value|);
      var c, g := 1 + |f.name|, 2 + |f.name| + |d|;
      && g + 1 + |f.value| <= |s|
      && s[0] == '<' && s[c] == ':' && s[g] == '>'
      && s[1..c] == f.name && s[c + 1..g] == d && s[g + 1..g + 1 + |f.value|] == f.value
      && (forall p :: 1 <= p < c ==> s[p] != ':')
      && (forall p :: c + 1 <= p < g ==> s[p] != '>')
  {
    var s := Token(f) + tail;
    var digits := NatToDecimal(|f.value|);
    var c := 1 + |f.name|;
    var g := c + 1 + |digits|;
    TokenLayout(f, tail);
    forall p | 1 <= p < c ensures s[p] != ':' {
      assert s[p] == s[1..c][p - 1];
    }
    forall p | c + 1 <= p < g ensures s[p] != '>' {
      assert s[p] == s[c + 1..g][p - c - 1];
    }
  }

  /** A reader takes one token off the front and goes on with the rest. */
  lemma DecodeToken(f: Field, tail: string)
    requires ':' !in f.name && |tail| >= |EndOfRecord|
    ensures Decode(Token(f) + tail) == match Decode(tail)
                                       case None => None
                                       case Some(rest) => Some([f] + rest)
  {
    var s := Token(f) + tail;
    ReadTokenOf(f, tail);
    assert s != EndOfRecord;
    assert s[|Token(f)|..] == tail;
  }

  /**
   * The length-prefix invariant: every record the encoder writes reads back
   * as exactly its fields, for any values, free text included.
   */
  lemma {:induction false} DecodeRender(fs: seq<Field>)
    requires WellNamed(fs)
    ensures Decode(Render(fs)) == Some(fs)
  {
    if fs == [] {
      RenderEmpty();
    } else {
      WellNamedTail(fs);
      DecodeRender(fs[1..]);
      DecodeCons(fs);
    }
  }

  lemma WellNamedTail(fs: seq<Field>)
    requires fs != [] && WellNamed(fs)
    ensures WellNamed(fs[1..])
  {
    forall i | 0 <= i < |fs[1..]| ensures ':' !in fs[1..][i].name {
      assert fs[1..][i] == fs[i + 1];
    }
  }

  /** A record reads back when the record of its later fields does. */
  lemma DecodeCons(fs: seq<Field>)
    requires fs != [] && ':' !in fs[0].name
    requires Decode(Render(fs[1..])) == Some(fs[1..])
    ensures Decode(Render(fs)) == Some(fs)
  {
    RenderCons(fs);
    RenderEndsWithEor(fs[1..]);
    DecodeToken(fs[0], Render(fs[1..]));
    assert fs == [fs[0]] + fs[1..];
  }

  /** Every record ends with the end-of-record marker. */
  lemma {:induction false} RenderEndsWithEor(fs: seq<Field>)
    ensures |Render(fs)| >= |EndOfRecord|
    ensures Render(fs)[|Render(fs)| - |EndOfRecord|..] == EndOfRecord
  {
    if fs == [] {
      RenderEmpty();
    } else {
      RenderCons(fs);
      RenderEndsWithEor(fs[1..]);
      var t, r := Token(fs[0]), Render(fs[1..]);
      assert (t + r)[|t + r| - |EndOfRecord|..] == r[|r| - |EndOfRecord|..];
    }
  }

  /** Every record starts with `<`: with its first token, or with `<eor>` when it has no fields. */
  lemma RenderStartsWithAngle(fs: seq<Field>)
    ensures |Render(fs)| > 0 && Render(fs)[0] == '<'
  {
    if fs == [] {
      RenderEmpty();
    } else {
      RenderCons(fs);
    }
  }
}
