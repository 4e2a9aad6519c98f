/**
 * The dispatch branch of `start_udp_listener`: what the relay does with one
 * received datagram, once decoded and stripped of surrounding whitespace.
 */
module Listener {
  import opened Wrappers
  import opened Text
  import opened Converter

  const XmlPrologue: string := "<?xml"

  /** What the listener does with one datagram. */
  datatype Action =
    | Ignore                  // nothing but whitespace was received
    | Forward(payload: string) // handed to `send_to_wavelog`
    | DropUnconverted          // XML that `convert_n1mm_to_adif` turned down

  /**
   * `received_data = data.decode('utf-8').strip()`; empty text is ignored;
   * text starting with `<?xml` is converted and the record sent when there
   * is one; any other text is sent as it is.
   */
  function Dispatch(text: string, freqText: FreqText): Action
  {
    var received := Strip(text);
    if received == [] then Ignore
    else if StartsWith(received, XmlPrologue) then
      match Convert(received, freqText)
      case None => DropUnconverted
      case Some(adif) => if adif == [] then DropUnconverted else Forward(adif)
    else Forward(received)
  }

  /**
   * The three outcomes: a datagram is ignored exactly when it is all
   * whitespace; an XML datagram is forwarded exactly when it converts, and
   * then as its ADIF record; anything else is forwarded as the stripped text.
   */
  lemma DispatchSpec(text: string, freqText: FreqText)
    ensures Dispatch(text, freqText) == Ignore <==> forall k :: 0 <= k < |text| ==> IsSpace(text[k])
    ensures StartsWith(Strip(text), XmlPrologue) ==>
      (Dispatch(text, freqText) == DropUnconverted <==> Convert(Strip(text), freqText).None?)
    ensures StartsWith(Strip(text), XmlPrologue) && Convert(Strip(text), freqText).Some? ==>
      Dispatch(text, freqText) == Forward(Convert(Strip(text), freqText).value)
    ensures Strip(text) != [] && !StartsWith(Strip(text), XmlPrologue) ==>
      Dispatch(text, freqText) == Forward(Strip(text))
  {
    StripEmpty(text);
    var received := Strip(text);
    if received != [] && StartsWith(received, XmlPrologue) && Convert(received, freqText).Some? {
      ConvertEnds(received, freqText);
    }
  }

  /**
   * XML that is not a `contactinfo` message (N1MM's radio and score
   * broadcasts) is never forwarded.
   */
  lemma OtherXmlDropped(text: string, freqText: FreqText)
    requires StartsWith(Strip(text), XmlPrologue) && !Contains(Strip(text), ContactInfoMarker)
    ensures Dispatch(text, freqText) == DropUnconverted
  {
  }

  /** What is forwarded is never empty and never carries whitespace at either end. */
  lemma ForwardedPayload(text: string, freqText: FreqText)
    requires Dispatch(text, freqText).Forward?
    ensures var p := Dispatch(text, freqText).payload;
      p != [] && !IsSpace(p[0]) && !IsSpace(p[|p| - 1])
  {
    ForwardedFrom(text, freqText);
    PayloadTrimmed(text, freqText, Dispatch(text, freqText).payload);
  }

  /** A forwarded payload is the stripped text or, for XML, its converted record. */
  lemma ForwardedFrom(text: string, freqText: FreqText)
    requires Dispatch(text, freqText).Forward?
    ensures var p, received := Dispatch(text, freqText).payload, Strip(text);
      (p == received && received != []) || Convert(received, freqText) == Some(p)
  {
  }

  /** Neither the stripped text nor a converted record has whitespace at its ends. */
  lemma PayloadTrimmed(text: string, freqText: FreqText, p: string)
    requires (p == Strip(text) && p != []) || Convert(Strip(text), freqText) == Some(p)
    ensures p != [] && !IsSpace(p[0]) && !IsSpace(p[|p| - 1])
  {
    if Convert(Strip(text), freqText) == Some(p) {
      ConvertEnds(Strip(text), freqText);
    } else {
      StripEnds(text);
    }
  }
}
