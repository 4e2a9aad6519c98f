# N1MM Logger to Wavelog relay, modelled in Dafny

The relay listens on a UDP port for the datagrams N1MM Logger broadcasts.
For each datagram it does one of these:

- A `contactinfo` XML message that converts becomes one ADIF record.
- Other XML, or a message that fails to convert, is dropped.
- Any other non-blank text is passed on with surrounding whitespace stripped; a blank datagram is ignored.

The result is posted to the QSO endpoint of a Wavelog server. Before it
starts, the relay checks its JSON configuration.

This project models the part of `log_helper.py` that makes those decisions.

| file | module | models |
|---|---|---|
| `wrappers.dfy` | `Wrappers` | `Option`, for Python's `Optional` |
| `text.dfy` | `Text` | Python's `in` and `startswith`, `str(int)`, zero-padded `strftime` fields, `str.isspace` and `str.strip()` |
| `xml_field.dfy` | `XmlField` | `extract_xml_field`: the search `re.search('<f>(.*?)</f>', xml)` written out as a leftmost, shortest-capture scan |
| `timestamps.dfy` | `Timestamps` | `datetime.strptime(s, '%Y-%m-%d %H:%M:%S')` on canonical text, and the `strftime('%Y%m%d')` / `strftime('%H%M%S')` texts taken from it |
| `adif.dfy` | `Adif` | the ADIF token `<name:N>value`, `''.join`, the `<eor>` terminator, and an ADIF reader (decoder) that serves as its partner |
| `converter.dfy` | `Converter` | `convert_n1mm_to_adif` in two forms. One is a table-driven specification (`Collect`, `RecordFields`, `Convert`). The other is the source's step-by-step construction of `adif_fields` (`ConvertN1mmToAdif`), proved equal to the first. |
| `delivery.dfy` | `Delivery` | `send_to_wavelog`: the retry loop, the exception classes, and the exponential back-off |
| `listener.dfy` | `Listener` | the branch `start_udp_listener` takes for one decoded datagram |
| `config.dfy` | `ServiceConfig` | `validate_config` and the template `create_config_template` writes |

Main results:

- **Extraction.** An extracted value is the capture of the leftmost, shortest `<f>…</f>` match. That capture is non-empty, holds no newline and no closing tag, and never spans two fields.
- **Conversion.** It fails exactly when:
  - the marker `<contactinfo>` is missing, or
  - a frequency or the timestamp does not convert.
- **Record contents.** A record holds exactly the fields whose elements are present, in the canonical order. It never holds a `band` field. A timestamp gives its three fields together, or none of them.
- **Round trip.** For every record the converter writes, an ADIF reader reads back exactly its fields. This holds for any values, which shows that every printed length is right. Every record ends with `<eor>`.
- **Delivery.**
  - It succeeds exactly when some attempt within the budget succeeds and every earlier attempt failed transiently.
  - An HTTP error status ends the loop at once.
  - The sleeps follow `2 ** attempt`.
- **Configuration.**
  - It is valid exactly when every required key is present, truthy and not its placeholder.
  - The reported keys come in the order they were checked.
  - `listen_address` plays no part.

Points where the code's behaviour is easy to misread, and which the model follows:

- **Newlines in a value.** A value never crosses a newline. The pattern is searched without `re.DOTALL`, so `.` does not match `\n` (`log_helper.py:82-83`).
- **Frequency text.** The frequency is written as `str(float(rxfreq) / 100000)`, Python's text for a float. For example, `1400000` gives `14.0`. The model takes that text as a parameter (see "Left out").
- **The length N.** N counts characters, because it is `len()` of a `str`. The model counts characters too.
- **Back-off.** The code sleeps `2 ** attempt`, which is 1 s and then 2 s (`Delivery.DefaultBackoff`). The comment at `log_helper.py:222` says 2 s and 4 s.
- **Delivery outcome.** `send_to_wavelog` returns a `bool`. The model keeps that.

## Model

| member | source | states |
|---|---|---|
| `Text.StartsWith` | log_helper.py:250 | `received_data.startswith(p)`: `p` occurs at position 0 (used by `Listener.DispatchSpec`) |
| `Text.Contains` | log_helper.py:97 | `p in s` holds exactly when `p` occurs in `s` at some position |
| `Text.Strip` | log_helper.py:245 | `received_data.strip()`, with Python's `isspace` set (`Text.IsSpace`); its contract is `Text.StripSpec` |
| `Text.StripSpec` | log_helper.py:245 | `strip()` returns a slice of its input with only whitespace outside it and no whitespace at either end; the result is empty exactly when the input is all whitespace |
| `Text.NatToDecimal` | log_helper.py:105 | `str(len(x))` in each token: non-empty, all digits, no leading zero unless the number is 0; `Text.DecimalOfNatToDecimal` shows it denotes the number |
| `Text.DecimalOfNatToDecimal` | log_helper.py:105 | the decimal text `str(n)` that prefixes a token denotes `n` again |
| `Text.PaddedValue` | log_helper.py:134-135 | a zero-padded field of width `w` denotes the number it was written from, when that number has at most `w` digits |
| `Text.PaddedOfValue` | log_helper.py:133 | a digit field read and written back at its width gives the same text |
| `XmlField.FindClose` | log_helper.py:82-83 | the lazy `(.*?)` scan for the closing tag, stopping at a newline; its contract is `XmlField.FindCloseSpec` |
| `XmlField.SearchFrom` | log_helper.py:83 | `re.search`'s leftmost scan over start positions; its contract is `XmlField.SearchFromSpec` and `XmlField.SearchIsLeftmost` |
| `XmlField.FindCloseSpec` | log_helper.py:82-83 | the lazy `(.*?)` scan finds the nearest closing tag that can be reached without crossing a newline, and returns None exactly when there is none |
| `XmlField.SearchFromSpec` | log_helper.py:83 | `re.search` from a start position reports the leftmost match with its shortest capture, or None when no match starts at or after it |
| `XmlField.SearchIsLeftmost` | log_helper.py:83 | from position 0 the search returns None exactly when there is no match; otherwise it returns the leftmost-shortest match, which is unique |
| `XmlField.LeftmostUnique` | log_helper.py:83 | at most one match is leftmost with shortest capture |
| `XmlField.ExtractField` | log_helper.py:72-84 | `extract_xml_field`; `XmlField.ExtractFieldNone`, `XmlField.ExtractFieldValue` and `XmlField.ExtractFieldClean` give its contract against the declarative leftmost-shortest match |
| `XmlField.ExtractFieldNone` | log_helper.py:84 | `extract_xml_field` returns None exactly when there is no tag pair or the leftmost pair encloses nothing |
| `XmlField.ExtractFieldValue` | log_helper.py:82-84 | otherwise it returns the text the leftmost pair encloses |
| `XmlField.ExtractFieldClean` | log_helper.py:82-84 | a returned value is non-empty and holds neither a newline nor the closing tag |
| `XmlField.CaptureClean` | log_helper.py:82-83 | the capture of the leftmost-shortest match holds no newline and no closing tag |
| `XmlField.ExtractFirstOfTwo` | log_helper.py:82-84 | with two elements of the same name (for a name without `<`), the value is the first one's text, whatever it holds short of a newline or the closing tag: the non-greedy capture stops at the first closing tag |
| `Timestamps.Parse` | log_helper.py:133 | `datetime.strptime(timestamp, '%Y-%m-%d %H:%M:%S')`, None for its `ValueError`; its contract is `Timestamps.ParseSpec` and `Timestamps.ParseFormat` |
| `Timestamps.DateText` | log_helper.py:134 | `dt.strftime('%Y%m%d')`; `Timestamps.DateTimeTexts` shows it is the eight date digits of the timestamp |
| `Timestamps.TimeText` | log_helper.py:135 | `dt.strftime('%H%M%S')`; `Timestamps.DateTimeTexts` shows it is the six time digits of the timestamp |
| `Timestamps.IsLeapYear` | log_helper.py:133 | the Gregorian leap-year rule `datetime` applies; `Timestamps.LeapDay` ties it to February 29 |
| `Timestamps.DaysInMonth` | log_helper.py:133 | the length of each month, 29 for February in a leap year |
| `Timestamps.Valid` | log_helper.py:133 | the values `datetime` accepts (year 1-9999, a real calendar day, hour below 24, minute and second below 60); outside them `strptime` raises `ValueError`, for example on 2023-02-29 or second 60; `Timestamps.ParseSpec` and `Timestamps.LeapDay` use it |
| `Timestamps.ParseSpec` | log_helper.py:133 | `strptime` returns the one valid date and time whose canonical text is the input, and fails exactly when there is none |
| `Timestamps.ParseFormat` | log_helper.py:133 | writing a valid date and time and parsing the text gives it back |
| `Timestamps.DateTimeTexts` | log_helper.py:133-135 | `qso_date` is the eight date digits of the timestamp and `time_on` the six time digits, with the separators removed |
| `Timestamps.LeapDay` | log_helper.py:133 | February 29 is accepted exactly in leap years |
| `Adif.Token` | log_helper.py:105 | the token `f"<{tag}:{len(x)}>{x}"` each present field appends; `Adif.ReadTokenOf` shows a reader takes it back exactly |
| `Adif.Join` | log_helper.py:169 | `''.join(adif_fields)` |
| `Adif.Render` | log_helper.py:167-169 | the tokens followed by `<eor>`, joined; `Adif.DecodeRender`, `Adif.RenderEndsWithEor` and `Adif.RenderStartsWithAngle` give its contract |
| `Adif.ReadTokenOf` | log_helper.py:105 | an ADIF reader reads back exactly the token `<name:len>value`, whatever follows it, when the name has no colon |
| `Adif.DecodeToken` | log_helper.py:169 | a reader takes the first token off a joined record and goes on with the rest |
| `Adif.DecodeRender` | log_helper.py:100-169 | every record built from colon-free names reads back as exactly its fields (the length-prefix invariant) |
| `Adif.DecodeCons` | log_helper.py:169 | a record reads back when the record of its later fields does |
| `Adif.RenderEndsWithEor` | log_helper.py:167-169 | every record ends with `<eor>` |
| `Adif.RenderStartsWithAngle` | log_helper.py:167-169 | every record starts with `<` |
| `Converter.TagName` | log_helper.py:103-164 | the ADIF name each block writes; `Converter.TagNameInjective` and `Converter.TagNameShape` state that the names are distinct, colon-free and never `band` |
| `Converter.SourceElement` | log_helper.py:103-164 | the N1MM element each block reads, `timestamp` for all three date and time tags |
| `Converter.TagAt` | log_helper.py:103-164 | the order of the blocks; `Converter.CollectOrder` shows the record follows it |
| `Converter.LookupTag` | log_helper.py:103-164 | what one `extract_xml_field` and its conversion yield for a tag: absent, the value (the MHz text for a frequency, the date or time text for a timestamp), or a value that raises |
| `Converter.Collect` | log_helper.py:100-164 | the fields of the first `k` canonical tags, in order, or None once one raises; `Converter.CollectNoneIff`, `Converter.CollectMembers`, `Converter.CollectOrder` and `Converter.CollectWellNamed` give its contract |
| `Converter.RecordFields` | log_helper.py:95-173 | the fields of the record, or None without `<contactinfo>` or after an exception; stated by `Converter.ConvertNoneIff` and `Converter.FieldPresence` |
| `Converter.Convert` | log_helper.py:86-173 | `convert_n1mm_to_adif`; `Converter.ConvertN1mmToAdif` is proved equal to it, and `Converter.ConvertNoneIff`, `Converter.ConvertDecodes` and `Converter.ConvertEnds` give its contract |
| `Converter.ConvertN1mmToAdif` | log_helper.py:86-173 | the token-by-token construction returns exactly the specified record, or None in the same cases |
| `Converter.AppendFront` | log_helper.py:100-128 | after `call`, `mode`, `freq_rx` and `freq`, `adif_fields` holds the tokens of the first four canonical fields; a frequency that does not convert makes the whole result None |
| `Converter.AppendTimestamp` | log_helper.py:131-138 | a timestamp adds `qso_date`, `time_on` and `time_off` in that order; one that `strptime` rejects makes the result None |
| `Converter.AppendReports` | log_helper.py:140-147 | `rst_rcvd` and `rst_sent` extend the tokens as the specification does |
| `Converter.AppendDetails` | log_helper.py:149-164 | `name`, `gridsquare`, `qth` and `comment` complete the tokens of all thirteen canonical tags |
| `Converter.AppendPlain` | log_helper.py:103-105 | a present element is appended as one token of its tag; an absent one adds nothing |
| `Converter.AppendFreq` | log_helper.py:119-122 | a present frequency is appended as its MHz text, and one that `float()` rejects ends the conversion with None |
| `Converter.StaysNone` | log_helper.py:171-173 | once a value fails to convert, the result is None whatever follows |
| `Converter.CollectNoneIff` | log_helper.py:100-164 | the record is None exactly when one of the tags read has a value that does not convert |
| `Converter.Converts` | log_helper.py:100-164 | when a record was built, every tag read for it converted |
| `Converter.ConvertNoneIff` | log_helper.py:95-173 | the converter returns None exactly when `<contactinfo>` is missing or some frequency or timestamp does not convert |
| `Converter.CollectMembers` | log_helper.py:100-164 | a field is in the record exactly when it is the field of a present tag |
| `Converter.FieldPresence` | log_helper.py:100-164 | the record has a field with a tag's name and value `v` exactly when the datagram has the tag's element and its converted value is `v` |
| `Converter.CollectOrder` | log_helper.py:100-164 | the record's names are a subsequence of the canonical tag order |
| `Converter.StepShape` | log_helper.py:100-164 | each step keeps the record built so far and may append the next tag's field |
| `Converter.StepNames` | log_helper.py:100-164 | each step keeps the names so far and may append only the next tag's name |
| `Converter.CollectWellNamed` | log_helper.py:107-111 | no name in a record has a colon, and none is `band`, whose block is switched off |
| `Converter.TagNameShape` | log_helper.py:107-111 | no tag is named `band` and no tag name has a colon |
| `Converter.TagNameInjective` | log_helper.py:100-164 | no two tags share an ADIF name |
| `Converter.ConvertDecodes` | log_helper.py:100-169 | every converted record reads back, with an ADIF reader, as exactly the specified fields, and ends with `<eor>` |
| `Converter.ConvertEnds` | log_helper.py:167-169 | a converted record is non-empty, starts with `<` and ends with `>` |
| `Converter.TimestampFields` | log_helper.py:130-138 | without a timestamp there is no date or time field; with one, `qso_date` is its date and `time_on` and `time_off` are both its time |
| `Converter.TimestampPresent` | log_helper.py:131-138 | a timestamp that parsed yields all three of its fields in the record |
| `Converter.TimestampTag` | log_helper.py:131-138 | a timestamp that parsed yields each single one of its three fields |
| `Converter.TimestampAbsent` | log_helper.py:131-132 | without a timestamp, no date or time field is present |
| `Delivery.Retryable` | log_helper.py:206-220 | the failures after which the loop goes on (timeout, connection error, other request error) as against an HTTP error status, which returns False; `Delivery.HttpErrorStops` and `Delivery.TransientGivesUp` use it |
| `Delivery.QsoRequest` | log_helper.py:186-197 | the request posted: URL `{wavelog_url}/api/qso` and the payload `key`, `station_profile_id`, `type: adif`, `string` |
| `Delivery.Backoff` | log_helper.py:222-225 | the schedule `2 ** k` seconds for the first `n` attempts; `Delivery.SendToWavelog` sleeps it for every attempt but the last, and `Delivery.BackoffTotal` sums it |
| `Delivery.Attempts` | log_helper.py:200-227 | the number of `requests.post` calls the loop makes; its contract is `Delivery.AttemptsSpec` |
| `Delivery.Delivered` | log_helper.py:200-227 | the loop's `True` verdict; its contract is `Delivery.DeliveredIff` |
| `Delivery.SendToWavelog` | log_helper.py:175-227 | the loop posts the same request to `{wavelog_url}/api/qso` once per attempt, returns True exactly when delivery succeeded, and sleeps `2 ** k` after each attempt but the last |
| `Delivery.AttemptsSpec` | log_helper.py:200-227 | at most `max_retries` attempts, and at least one when it is positive; every attempt but the last was a transient failure, and the loop stops early only at one that is not |
| `Delivery.AttemptsFromSpec` | log_helper.py:200-220 | the same, counted from any attempt on |
| `Delivery.DeliveredIff` | log_helper.py:200-205 | the result is True exactly when some attempt within the budget succeeds after transient failures only |
| `Delivery.HttpErrorStops` | log_helper.py:214-216 | an HTTP error status ends the loop at once, with False |
| `Delivery.TransientGivesUp` | log_helper.py:206-227 | when every attempt fails transiently the relay makes exactly `max_retries` attempts and returns False |
| `Delivery.BackoffTotal` | log_helper.py:223-225 | the first `n` sleeps add up to `2 ** n - 1` seconds |
| `Delivery.DefaultBackoff` | log_helper.py:222-225 | with the default three attempts the sleeps are 1 s and then 2 s |
| `Listener.Dispatch` | log_helper.py:244-265 | the branch taken for one datagram; its contract is `Listener.DispatchSpec`, `Listener.OtherXmlDropped` and `Listener.ForwardedPayload` |
| `Listener.DispatchSpec` | log_helper.py:245-263 | an all-whitespace datagram is ignored; XML is forwarded as its record exactly when it converts, and dropped otherwise; other text is forwarded stripped |
| `Listener.OtherXmlDropped` | log_helper.py:250-259 | XML that is not a `contactinfo` message is never forwarded |
| `Listener.ForwardedPayload` | log_helper.py:245-263 | what is forwarded is never empty and has no whitespace at either end |
| `Listener.ForwardedFrom` | log_helper.py:248-263 | a forwarded payload is the stripped text or, for XML, its converted record |
| `Listener.PayloadTrimmed` | log_helper.py:245-253 | neither the stripped text nor a converted record has whitespace at its ends |
| `ServiceConfig.Truthy` | log_helper.py:299 | `bool(config[key])` for each kind of JSON value |
| `ServiceConfig.Placeholder` | log_helper.py:299 | `f"your-{key.replace('_', '-')}-here"` |
| `ServiceConfig.Acceptable` | log_helper.py:299 | the negation of the per-key test: present, truthy and not the placeholder; `ServiceConfig.MissingKeysMembers` ties it to the report |
| `ServiceConfig.MissingKeys` | log_helper.py:298-300 | `missing_keys` after the loop; its contract is `ServiceConfig.MissingKeysMembers` and `ServiceConfig.MissingKeysOrder` |
| `ServiceConfig.Valid` | log_helper.py:302-308 | `validate_config`'s verdict, no key reported; `ServiceConfig.ValidIff`, `ServiceConfig.ListenAddressIgnored`, `ServiceConfig.TemplateRejected` and `ServiceConfig.TemplateUrlAccepted` state it |
| `ServiceConfig.ValidStrict` | log_helper.py:297-300 | the corrected check of the finding below: as written, and no server address or API key still holds its template value; `ServiceConfig.ValidStrictSpec` and `ServiceConfig.TemplateUrlRejectedStrict` state it |
| `ServiceConfig.ValidateConfig` | log_helper.py:285-308 | the loop collects exactly the unacceptable required keys, in order, and the configuration is valid exactly when there are none |
| `ServiceConfig.MissingKeysMembers` | log_helper.py:298-300 | a key is reported exactly when it is required and missing, falsy or its placeholder |
| `ServiceConfig.MissingKeysOrder` | log_helper.py:298-300 | the reported keys keep the order of `required_keys` |
| `ServiceConfig.ValidIff` | log_helper.py:294-308 | valid exactly when every required key is acceptable |
| `ServiceConfig.ListenAddressIgnored` | log_helper.py:294 | changing or removing `listen_address` never changes the verdict |
| `ServiceConfig.TemplateRejected` | log_helper.py:25-31 | the template as written (the constant `ServiceConfig.TemplateConfig`, with the five values of `log_helper.py:25-31`) is turned down, because of its `api_key` |
| `ServiceConfig.TemplateUrlAccepted` | log_helper.py:297-300 | as written, the template with only its API key filled in passes, with the template server address still in it |
| `ServiceConfig.ValidStrictSpec` | log_helper.py:297-300 | the intended check turns down any configuration that keeps a template server address or API key, and otherwise agrees with the check as written |
| `ServiceConfig.TemplateUrlRejectedStrict` | log_helper.py:297-300 | under the intended check, the template with only its API key filled in is turned down |

## Left out

- **Sockets.** The socket, `bind`, `recvfrom(4096)`, UTF-8 decoding and its `UnicodeDecodeError`, the `while True` loop, the `OSError` handling (errno 10048) and `sock.close()` are left out. They are I/O. `Listener.Dispatch` takes the decoded text of one datagram.
- **The HTTP exchange.** The headers, the 15-second timeout, `requests.post` and `raise_for_status` are left out. They are network I/O. What attempt `k` yields is the parameter `outcome(k)`.
- **Sleeping.** `time.sleep` is recorded in the list `sleeps` and not performed. There is no clock in the model.
- **Logging and the console.** All `logging`, `print` and `input()` calls are output only and are left out.
- **Setup code.** `load_config`, writing the template file, and `main` are file and console I/O. Only the template's contents (`ServiceConfig.TemplateConfig`) and the verdict of `validate_config` are modelled. Filling in a missing `listen_address` in `main` (`log_helper.py:331-332`) happens after validation. `ServiceConfig.ListenAddressIgnored` shows that it cannot affect the verdict.
- **Exceptions.** Two kinds of failure are modelled. The converter's `try` (`log_helper.py:95-173`) is modelled by None for the two conversions that can raise, `float()` and `strptime`. Delivery is modelled by the four `requests` exception classes of `Delivery.AttemptOutcome`. The `except Exception` around dispatch (`log_helper.py:269-271`) logs any other exception raised while a datagram is handled, and the loop goes on. One example is a `KeyError` from a missing setting in `send_to_wavelog`. The model does not represent such exceptions. The outer handlers (`log_helper.py:273-283`) concern the socket.
- **`find_dlls.py`.** It is a build helper and not part of this model.
- **Frequency text.** `float(x) / 100000` and `str()` of the quotient are floating-point arithmetic and float formatting. The converter takes them as the parameter `freqText`: it gives Some text, or None where `float()` raises `ValueError`. Every property is proved for all such parameters.
- **Any reader.** The converter's properties are proved for any field reader, not only `extract_xml_field`. The source's `if x:` test and the model's `Some?` test agree because `XmlField.ExtractFieldClean` shows that an extracted value is never empty.
- `Timestamps.Parse`: models `strptime` only on the canonical 19-character form: ASCII digits, zero-padded fields and one space between date and time. `strptime` also accepts other forms, and the model returns None for all of them (no record) where the source builds one. Those forms are unpadded fields such as `2024-1-5 1:2:3`, any run of whitespace, a tab included, in place of the space (the format's space becomes `\s+`), and non-ASCII decimal digits (matched by `\d`). `Timestamps.ParseSpec` states the same restriction.
- `Timestamps.ParseSpec`: describes `strptime` on the canonical form only (see `Timestamps.Parse`).
- `Timestamps.DateText`: always gives `qso_date` a four-digit year, as `strftime('%Y')` does on platforms that pad it. With glibc, years below 1000 (`0999-…`) are printed without leading zeros. `Timestamps.DateTimeTexts` states the four-digit form.
- `Timestamps.DateTimeTexts`: states the four-digit year (see `Timestamps.DateText`).
- `XmlField.ExtractFieldValue`: the field name is inserted into the pattern as regular-expression syntax, and is taken as literal text here. The source only passes fixed letter-and-digit names, which mean the same either way.
- **JSON values.** Numbers are `real`. The `NaN` and `Infinity` that `json.load` also accepts are not modelled. A value is compared with its placeholder text exactly, as Python compares a value with a `str`.
- `Delivery.SendToWavelog`: takes the three settings it reads as text. A missing key would raise `KeyError` in the source, which `validate_config` excludes for a configuration that passed.

## Findings

| source | as written | input that shows it | evidently intended | confidence | as-written member | corrected member |
|---|---|---|---|---|---|---|
| log_helper.py:297-300 | The template check compares each value with `your-<key>-here`. The template writes the server address as `https://your-wavelog-url.com` (`log_helper.py:27`), which is not of that form, so it passes. | the template with only `api_key` filled in | no setting the user must replace (the server address and the API key) still holds its template value | medium; not executed | `ServiceConfig.TemplateUrlAccepted` | `ServiceConfig.ValidStrictSpec` |
