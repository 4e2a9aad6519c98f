/**
 * `convert_n1mm_to_adif`: turns an N1MM Logger `contactinfo` datagram into
 * one ADIF record.
 *
 * The specification is table-driven: the canonical tag order, the N1MM
 * element each tag is read from, and what one lookup yields (absent, a value,
 * or a value that does not convert). The method below builds the record the
 * way the source does, appending one token at a time, and is proved to
 * produce the record the table describes.
 */
module Converter {
  import opened Wrappers
  import opened Text
  import opened XmlField
  import opened Timestamps
  import opened Adif

  const ContactInfoMarker: string := "<contactinfo>"

  /** The ADIF tags the relay writes. The `band` tag is switched off in the source and has no entry. */
  datatype Tag = Call | Mode | FreqRx | Freq | QsoDate | TimeOn | TimeOff
               | RstRcvd | RstSent | Name | GridSquare | Qth | Comment

  function TagName(t: Tag): string
  {
    match t
    case Call => "call"
    case Mode => "mode"
    case FreqRx => "freq_rx"
    case Freq => "freq"
    case QsoDate => "qso_date"
    case TimeOn => "time_on"
    case TimeOff => "time_off"
    case RstRcvd => "rst_rcvd"
    case RstSent => "rst_sent"
    case Name => "name"
    case GridSquare => "gridsquare"
    case Qth => "qth"
    case Comment => "comment"
  }

  /** The N1MM element a tag's value comes from. */
  function SourceElement(t: Tag): string
  {
    match t
    case Call => "call"
    case Mode => "mode"
    case FreqRx => "rxfreq"
    case Freq => "txfreq"
    case QsoDate | TimeOn | TimeOff => "timestamp"
    case RstRcvd => "rcv"
    case RstSent => "snt"
    case Name => "name"
    case GridSquare => "gridsquare"
    case Qth => "qth"
    case Comment => "comment"
  }

  /** The number of tags the relay writes. */
  const TagCount: nat := 13

  /** The canonical order: the `i`-th tag the source appends, if present. */
  function TagAt(i: nat): Tag
    requires i < TagCount
  {
    if i == 0 then Call else if i == 1 then Mode else if i == 2 then FreqRx else if i == 3 then Freq
    else if i == 4 then QsoDate else if i == 5 then TimeOn else if i == 6 then TimeOff
    else if i == 7 then RstRcvd else if i == 8 then RstSent else if i == 9 then Name
    else if i == 10 then GridSquare else if i == 11 then Qth else Comment
  }

  /** The names of the first `k` tags in the canonical order. */
  function OrderNames(k: nat): (ns: seq<string>)
    requires k <= TagCount
    ensures |ns| == k && forall i :: 0 <= i < k ==> ns[i] == TagName(TagAt(i))
  {
    seq(k, i requires 0 <= i < k => TagName(TagAt(i)))
  }

  /**
   * `str(float(x) / 100000)`, the frequency in MHz as Python prints it, is a
   * parameter of the model: Some text, or None where `float()` raises.
   */
  type FreqText = string -> Option<string>

  /** Reads one element of a datagram by name, as `extract_xml_field` does. */
  type FieldReader = string -> Option<string>

  /** The reader the source uses: `extract_xml_field` on the received text. */
  function Reader(xml: string): FieldReader
  {
    name => ExtractField(xml, name)
  }

  /** What reading one tag yields. */
  datatype Lookup = Absent | Present(value: string) | Malformed

  function LookupTag(read: FieldReader, t: Tag, freqText: FreqText): Lookup
  {
    match read(SourceElement(t))
    case None => Absent
    case Some(raw) =>
      if t == FreqRx || t == Freq then
        match freqText(raw)
        case None => Malformed
        case Some(mhz) => Present(mhz)
      else if t == QsoDate || t == TimeOn || t == TimeOff then
        match Parse(raw)
        case None => Malformed
        case Some(dt) => Present(if t == QsoDate then DateText(dt) else TimeText(dt))
      else Present(raw)
  }

  /** One step of the construction: the record so far, extended by the field for `t` (None propagates). */
  function Step(read: FieldReader, t: Tag, freqText: FreqText, acc: Option<seq<Field>>): Option<seq<Field>>
  {
    match acc
    case None => None
    case Some(prev) =>
      match LookupTag(read, t, freqText)
      case Malformed => None
      case Absent => Some(prev)
      case Present(v) => Some(prev + [Field(TagName(t), v)])
  }

  /** The fields for the first `k` canonical tags, in order, absent ones skipped; None if any value does not convert. */
  function Collect(read: FieldReader, k: nat, freqText: FreqText): Option<seq<Field>>
    requires k <= TagCount
  {
    if k == 0 then Some([]) else Step(read, TagAt(k - 1), freqText, Collect(read, k - 1, freqText))
  }

  /** The fields of the record for a datagram, or None when the source returns None. */
  function RecordFields(xml: string, freqText: FreqText): Option<seq<Field>>
  {
    if !Contains(xml, ContactInfoMarker) then None else Collect(Reader(xml), TagCount, freqText)
  }

  /** The text `convert_n1mm_to_adif` returns. */
  function Convert(xml: string, freqText: FreqText): Option<string>
  {
    match RecordFields(xml, freqText)
    case None => None
    case Some(fs) => Some(Render(fs))
  }

  /**
   * The source's step-by-step construction: the list `adif_fields` grows by
   * one token per present field, in the canonical order, then `<eor>` is
   * appended and the list joined. A value that does not convert makes the
   * result None. The source's repeated "extract, then append if present"
   * block is written once per kind of tag (AppendPlain, AppendFreq and
   * AppendTimestamp), and its runs of such blocks are grouped as the
   * source groups them (AppendFront, AppendReports, AppendDetails).
   */
  method ConvertN1mmToAdif(xml: string, freqText: FreqText) returns (r: Option<string>)
    ensures r == Convert(xml, freqText)
  {
    if !Contains(xml, ContactInfoMarker) {
      return None;
    }
    var read := Reader(xml);
    var ok: bool;
    var adifFields: seq<string>;
    ghost var record: seq<Field>;
    ok, adifFields, record := AppendFront(read, freqText);
    if !ok {
      return None;
    }
    ok, adifFields, record := AppendTimestamp(read, freqText, adifFields, record);
    if !ok {
      StaysNone(read, 7, freqText);
      return None;
    }
    adifFields, record := AppendReports(read, freqText, adifFields, record);
    adifFields, record := AppendDetails(read, freqText, adifFields, record);
    adifFields := adifFields + [EndOfRecord];
    r := Some(Join(adifFields));
  }

  /** After the first `k` tags: the fields so far, and the tokens `adif_fields` holds for them. */
  ghost predicate Built(read: FieldReader, k: nat, freqText: FreqText, adifFields: seq<string>, record: seq<Field>)
  {
    k <= TagCount && Collect(read, k, freqText) == Some(record) && adifFields == TokenList(record)
  }

  /** The `k`-th tag is `t`, copied as it is read. */
  predicate PlainTagAt(k: nat, t: Tag)
  {
    k < TagCount && TagAt(k) == t && t !in {FreqRx, Freq, QsoDate, TimeOn, TimeOff}
  }

  /** The `k`-th tag is `t`, a frequency. */
  predicate FreqTagAt(k: nat, t: Tag)
  {
    k < TagCount && TagAt(k) == t && t in {FreqRx, Freq}
  }

  /** `call`, `mode`, `freq_rx` and `freq`. */
  method AppendFront(read: FieldReader, freqText: FreqText)
      returns (ok: bool, adifFields: seq<string>, ghost record: seq<Field>)
    ensures ok ==> Built(read, 4, freqText, adifFields, record)
    ensures !ok ==> Collect(read, TagCount, freqText) == None
  {
    adifFields, record := [], [];
    adifFields, record := AppendPlain(read, 0, Call, freqText, adifFields, record);
    adifFields, record := AppendPlain(read, 1, Mode, freqText, adifFields, record);
    ok, adifFields, record := AppendFreq(read, 2, FreqRx, freqText, adifFields, record);
    if !ok {
      StaysNone(read, 3, freqText);
      return;
    }
    ok, adifFields, record := AppendFreq(read, 3, Freq, freqText, adifFields, record);
    if !ok {
      StaysNone(read, 4, freqText);
    }
  }

  /** The signal reports `rst_rcvd` and `rst_sent`. */
  method AppendReports(read: FieldReader, freqText: FreqText, adifFields: seq<string>, ghost record: seq<Field>)
      returns (grown: seq<string>, ghost next: seq<Field>)
    requires Built(read, 7, freqText, adifFields, record)
    ensures Built(read, 9, freqText, grown, next)
  {
    grown, next := AppendPlain(read, 7, RstRcvd, freqText, adifFields, record);
    grown, next := AppendPlain(read, 8, RstSent, freqText, grown, next);
  }

  /** `name`, `gridsquare`, `qth` and `comment`. */
  method AppendDetails(read: FieldReader, freqText: FreqText, adifFields: seq<string>, ghost record: seq<Field>)
      returns (grown: seq<string>, ghost next: seq<Field>)
    requires Built(read, 9, freqText, adifFields, record)
    ensures Built(read, TagCount, freqText, grown, next)
  {
    grown, next := AppendPlain(read, 9, Name, freqText, adifFields, record);
    grown, next := AppendPlain(read, 10, GridSquare, freqText, grown, next);
    grown, next := AppendPlain(read, 11, Qth, freqText, grown, next);
    grown, next := AppendPlain(read, 12, Comment, freqText, grown, next);
  }

  /**
   * `x = extract_xml_field(xml_data, elem)`, then
   * `if x: adif_fields.append(f"<tag:{len(x)}>{x}")`, for the `k`-th tag.
   */
  method AppendPlain(read: FieldReader, k: nat, t: Tag, freqText: FreqText, adifFields: seq<string>,
                     ghost record: seq<Field>)
      returns (grown: seq<string>, ghost next: seq<Field>)
    requires PlainTagAt(k, t) && Built(read, k, freqText, adifFields, record)
    ensures Built(read, k + 1, freqText, grown, next)
  {
    var value := read(SourceElement(t));
    grown, next := adifFields, record;
    if value.Some? {
      TokenListSnoc(next, Field(TagName(t), value.value));
      grown := grown + [Token(Field(TagName(t), value.value))];
      next := next + [Field(TagName(t), value.value)];
    }
  }

  /**
   * `f = extract_xml_field(xml_data, elem)`, then `str(float(f) / 100000)`
   * appended as `freq_rx` or `freq`, for the `k`-th tag.
   */
  method AppendFreq(read: FieldReader, k: nat, t: Tag, freqText: FreqText, adifFields: seq<string>,
                    ghost record: seq<Field>)
      returns (ok: bool, grown: seq<string>, ghost next: seq<Field>)
    requires FreqTagAt(k, t) && Built(read, k, freqText, adifFields, record)
    ensures ok ==> Built(read, k + 1, freqText, grown, next)
    ensures !ok ==> Collect(read, k + 1, freqText) == None
  {
    var value := read(SourceElement(t));
    ok, grown, next := true, adifFields, record;
    if value.Some? {
      var freqMhz := freqText(value.value);
      if freqMhz.None? {
        return false, grown, next;
      }
      TokenListSnoc(next, Field(TagName(t), freqMhz.value));
      grown := grown + [Token(Field(TagName(t), freqMhz.value))];
      next := next + [Field(TagName(t), freqMhz.value)];
    }
  }

  /**
   * `timestamp = extract_xml_field(xml_data, 'timestamp')`, parsed with
   * `strptime`; its date and time are appended as `qso_date`, `time_on`
   * and, with the same text, `time_off`.
   */
  method AppendTimestamp(read: FieldReader, freqText: FreqText, adifFields: seq<string>, ghost record: seq<Field>)
      returns (ok: bool, grown: seq<string>, ghost next: seq<Field>)
    requires Built(read, 4, freqText, adifFields, record)
    ensures ok ==> Built(read, 7, freqText, grown, next)
    ensures !ok ==> Collect(read, 7, freqText) == None
  {
    var timestamp := read(SourceElement(QsoDate));
    ok, grown, next := true, adifFields, record;
    if timestamp.Some? {
      var dt := Parse(timestamp.value);
      if dt.None? {
        assert Collect(read, 5, freqText) == None;
        assert Collect(read, 6, freqText) == None;
        return false, grown, next;
      }
      var qsoDate := DateText(dt.value);
      var timeOn := TimeText(dt.value);
      TokenListSnoc(next, Field(TagName(QsoDate), qsoDate));
      grown, next := grown + [Token(Field(TagName(QsoDate), qsoDate))], next + [Field(TagName(QsoDate), qsoDate)];
      assert Collect(read, 5, freqText) == Some(next);
      TokenListSnoc(next, Field(TagName(TimeOn), timeOn));
      grown, next := grown + [Token(Field(TagName(TimeOn), timeOn))], next + [Field(TagName(TimeOn), timeOn)];
      assert Collect(read, 6, freqText) == Some(next);
      TokenListSnoc(next, Field(TagName(TimeOff), timeOn));
      grown, next := grown + [Token(Field(TagName(TimeOff), timeOn))], next + [Field(TagName(TimeOff), timeOn)];
    } else {
      assert Collect(read, 5, freqText) == Some(next);
      assert Collect(read, 6, freqText) == Some(next);
    }
  }

  lemma TokenListSnoc(fs: seq<Field>, f: Field)
    ensures TokenList(fs + [f]) == TokenList(fs) + [Token(f)]
  {
  }

  /** Once a value fails to convert, the record stays None. */
  lemma {:induction false} StaysNone(read: FieldReader, k: nat, freqText: FreqText)
    requires k <= TagCount && Collect(read, k, freqText) == None
    ensures Collect(read, TagCount, freqText) == None
    decreases TagCount - k
  {
    if k < TagCount {
      assert Collect(read, k + 1, freqText) == Step(read, TagAt(k), freqText, None);
      StaysNone(read, k + 1, freqText);
    }
  }

  // ------------------------------------------------------------ properties

  /** The field a tag contributes, if any. */
  function FieldOf(read: FieldReader, t: Tag, freqText: FreqText): (r: Option<Field>)
    ensures r.Some? <==> LookupTag(read, t, freqText).Present?
    ensures r.Some? ==> r.value == Field(TagName(t), LookupTag(read, t, freqText).value)
  {
    match LookupTag(read, t, freqText)
    case Present(v) => Some(Field(TagName(t), v))
    case _ => None
  }

  /** Where a tag stands in the canonical order. */
  function Rank(t: Tag): (i: nat)
    ensures i < TagCount && TagAt(i) == t
  {
    match t
    case Call => 0
    case Mode => 1
    case FreqRx => 2
    case Freq => 3
    case QsoDate => 4
    case TimeOn => 5
    case TimeOff => 6
    case RstRcvd => 7
    case RstSent => 8
    case Name => 9
    case GridSquare => 10
    case Qth => 11
    case Comment => 12
  }

  /** No two tags share a name. */
  lemma TagNameInjective(t: Tag, u: Tag)
    ensures TagName(t) == TagName(u) ==> t == u
  {
  }

  /** The band is never written, and no tag name holds a colon. */
  lemma TagNameShape(t: Tag)
    ensures TagName(t) != "band" && ':' !in TagName(t)
  {
  }

  /** The record is None exactly when one of the tags read so far has a value that does not convert. */
  lemma {:induction false} CollectNoneIff(read: FieldReader, k: nat, freqText: FreqText)
    requires k <= TagCount
    ensures Collect(read, k, freqText).None? <==>
      exists i :: 0 <= i < k && LookupTag(read, TagAt(i), freqText).Malformed?
  {
    if k > 0 {
      CollectNoneIff(read, k - 1, freqText);
    }
  }

  /** When the record is built, every tag read for it converted. */
  lemma Converts(read: FieldReader, k: nat, freqText: FreqText, i: nat)
    requires i < k <= TagCount && Collect(read, k, freqText).Some?
    ensures !LookupTag(read, TagAt(i), freqText).Malformed?
  {
    CollectNoneIff(read, k, freqText);
  }

  /** The record holds exactly the fields of the tags read so far that were present. */
  lemma {:induction false} CollectMembers(read: FieldReader, k: nat, freqText: FreqText, fs: seq<Field>)
    requires k <= TagCount && Collect(read, k, freqText) == Some(fs)
    ensures forall f :: f in fs <==>
      exists i :: 0 <= i < k && FieldOf(read, TagAt(i), freqText) == Some(f)
  {
    if k > 0 {
      var prev := StepShape(read, k, freqText);
      CollectMembers(read, k - 1, freqText, prev);
    }
  }

  /**
   * For each tag: the record holds a field with the tag's name and value `v`
   * exactly when the datagram has the tag's element and its converted
   * value is `v`.
   */
  lemma FieldPresence(read: FieldReader, freqText: FreqText, fs: seq<Field>, t: Tag, v: string)
    requires Collect(read, TagCount, freqText) == Some(fs)
    ensures Field(TagName(t), v) in fs <==> LookupTag(read, t, freqText) == Present(v)
  {
    CollectMembers(read, TagCount, freqText, fs);
    if Field(TagName(t), v) in fs {
      var i :| 0 <= i < TagCount && FieldOf(read, TagAt(i), freqText) == Some(Field(TagName(t), v));
      TagNameInjective(t, TagAt(i));
    } else {
      assert FieldOf(read, TagAt(Rank(t)), freqText) != Some(Field(TagName(t), v));
    }
  }

  /** The fields come in the canonical order: their names are a subsequence of the tag names. */
  lemma {:induction false} CollectOrder(read: FieldReader, k: nat, freqText: FreqText, fs: seq<Field>)
    requires k <= TagCount && Collect(read, k, freqText) == Some(fs)
    ensures IsSubsequence(Names(fs), OrderNames(k))
  {
    if k > 0 {
      var prev := StepNames(read, k, freqText);
      CollectOrder(read, k - 1, freqText, prev);
      var b := OrderNames(k);
      assert b[..k - 1] == OrderNames(k - 1);
      SubsequenceOfInit(Names(prev), b);
    }
  }

  /** The names of a record that was built: those of the previous record, perhaps followed by the `k`-th tag's name. */
  lemma StepNames(read: FieldReader, k: nat, freqText: FreqText) returns (prev: seq<Field>)
    requires 0 < k <= TagCount && Collect(read, k, freqText).Some?
    ensures Collect(read, k - 1, freqText) == Some(prev)
    ensures var ns := Names(Collect(read, k, freqText).value);
      ns == Names(prev) || ns == Names(prev) + [TagName(TagAt(k - 1))]
  {
    prev := StepShape(read, k, freqText);
    var f := FieldOf(read, TagAt(k - 1), freqText);
    if f.Some? {
      assert Names(prev + [f.value]) == Names(prev) + [f.value.name];
    }
  }

  /** The last step of a record that was built: the previous record, grown by the `k`-th tag's field if it is present. */
  lemma StepShape(read: FieldReader, k: nat, freqText: FreqText) returns (prev: seq<Field>)
    requires 0 < k <= TagCount && Collect(read, k, freqText).Some?
    ensures Collect(read, k - 1, freqText) == Some(prev)
    ensures var f := FieldOf(read, TagAt(k - 1), freqText);
      Collect(read, k, freqText).value == if f.Some? then prev + [f.value] else prev
  {
    prev := Collect(read, k - 1, freqText).value;
  }

  /** Every record the converter builds is well named: its names hold no colon, and none is `band`. */
  lemma CollectWellNamed(read: FieldReader, freqText: FreqText, fs: seq<Field>)
    requires Collect(read, TagCount, freqText) == Some(fs)
    ensures WellNamed(fs)
    ensures forall i :: 0 <= i < |fs| ==> fs[i].name != "band"
  {
    CollectMembers(read, TagCount, freqText, fs);
    forall i | 0 <= i < |fs| ensures ':' !in fs[i].name && fs[i].name != "band" {
      assert fs[i] in fs;
      var j :| 0 <= j < TagCount && FieldOf(read, TagAt(j), freqText) == Some(fs[i]);
      TagNameShape(TagAt(j));
    }
  }

  /**
   * `convert_n1mm_to_adif` returns None exactly when the datagram is not a
   * `contactinfo` message or one of its values does not convert (a
   * frequency `float()` rejects, a timestamp `strptime` rejects).
   */
  lemma ConvertNoneIff(xml: string, freqText: FreqText)
    ensures Convert(xml, freqText).None? <==>
      !Contains(xml, ContactInfoMarker) ||
      exists i :: 0 <= i < TagCount && LookupTag(Reader(xml), TagAt(i), freqText).Malformed?
  {
    CollectNoneIff(Reader(xml), TagCount, freqText);
  }

  /**
   * Every record the converter writes reads back, with an ADIF reader, as
   * exactly its fields, and ends with `<eor>`.
   */
  lemma ConvertDecodes(xml: string, freqText: FreqText)
    requires Convert(xml, freqText).Some?
    ensures Decode(Convert(xml, freqText).value) == RecordFields(xml, freqText)
    ensures var out := Convert(xml, freqText).value;
      |out| >= |EndOfRecord| && out[|out| - |EndOfRecord|..] == EndOfRecord
  {
    var fs := RecordFields(xml, freqText).value;
    CollectWellNamed(Reader(xml), freqText, fs);
    DecodeRender(fs);
    RenderEndsWithEor(fs);
  }

  /** A converted record is never empty: it starts with `<` and ends with `>`. */
  lemma ConvertEnds(xml: string, freqText: FreqText)
    requires Convert(xml, freqText).Some?
    ensures var out := Convert(xml, freqText).value;
      out != [] && out[0] == '<' && out[|out| - 1] == '>'
  {
    var fs := RecordFields(xml, freqText).value;
    RenderEndsWithEor(fs);
    RenderStartsWithAngle(fs);
    var out := Render(fs);
    assert out[|out| - 1] == out[|out| - |EndOfRecord|..][|EndOfRecord| - 1];
  }

  /**
   * The timestamp gives three fields or none: without a `timestamp`
   * element there is no date or time field; with one, `qso_date` is its
   * date, and `time_on` and `time_off` are both its time.
   */
  lemma TimestampFields(read: FieldReader, freqText: FreqText, fs: seq<Field>)
    requires Collect(read, TagCount, freqText) == Some(fs)
    ensures read("timestamp").None? ==>
      forall v :: Field(TagName(QsoDate), v) !in fs && Field(TagName(TimeOn), v) !in fs && Field(TagName(TimeOff), v) !in fs
    ensures read("timestamp").Some? ==>
      Parse(read("timestamp").value).Some? &&
      var dt := Parse(read("timestamp").value).value;
      && Field(TagName(QsoDate), DateText(dt)) in fs
      && Field(TagName(TimeOn), TimeText(dt)) in fs
      && Field(TagName(TimeOff), TimeText(dt)) in fs
  {
    if read("timestamp").Some? {
      TimestampPresent(read, freqText, fs);
    } else {
      forall v ensures Field(TagName(QsoDate), v) !in fs && Field(TagName(TimeOn), v) !in fs && Field(TagName(TimeOff), v) !in fs {
        TimestampAbsent(read, freqText, fs, v);
      }
    }
  }

  lemma TimestampPresent(read: FieldReader, freqText: FreqText, fs: seq<Field>)
    requires Collect(read, TagCount, freqText) == Some(fs) && read("timestamp").Some?
    ensures Parse(read("timestamp").value).Some?
    ensures var dt := Parse(read("timestamp").value).value;
      && Field(TagName(QsoDate), DateText(dt)) in fs
      && Field(TagName(TimeOn), TimeText(dt)) in fs
      && Field(TagName(TimeOff), TimeText(dt)) in fs
  {
    TimestampTag(read, freqText, fs, QsoDate);
    TimestampTag(read, freqText, fs, TimeOn);
    TimestampTag(read, freqText, fs, TimeOff);
  }

  /** One of the three fields taken from a present timestamp. */
  lemma TimestampTag(read: FieldReader, freqText: FreqText, fs: seq<Field>, t: Tag)
    requires Collect(read, TagCount, freqText) == Some(fs) && read("timestamp").Some?
    requires t == QsoDate || t == TimeOn || t == TimeOff
    ensures Parse(read("timestamp").value).Some?
    ensures var dt := Parse(read("timestamp").value).value;
      Field(TagName(t), if t == QsoDate then DateText(dt) else TimeText(dt)) in fs
  {
    Converts(read, TagCount, freqText, Rank(t));
    var dt := Parse(read("timestamp").value).value;
    FieldPresence(read, freqText, fs, t, if t == QsoDate then DateText(dt) else TimeText(dt));
  }

  lemma TimestampAbsent(read: FieldReader, freqText: FreqText, fs: seq<Field>, v: string)
    requires Collect(read, TagCount, freqText) == Some(fs) && read("timestamp").None?
    ensures Field(TagName(QsoDate), v) !in fs && Field(TagName(TimeOn), v) !in fs && Field(TagName(TimeOff), v) !in fs
  {
    FieldPresence(read, freqText, fs, QsoDate, v);
    FieldPresence(read, freqText, fs, TimeOn, v);
    FieldPresence(read, freqText, fs, TimeOff, v);
  }
}
