/** The traceparent header of harness/tracing.py (section 3.2.2 of W3C Trace Context). */
module Traceparent {
  import opened Seqs
  import opened Text

  datatype TraceContext = TraceContext(traceId: string, parentId: string, flags: string, version: string)
  {
    function ToHeader(): string
    {
      version + "-" + traceId + "-" + parentId + "-" + flags
    }

    /** The same trace with a new span; `span` is the result of `_random_hex(8)`. */
    function Child(span: string): TraceContext
    {
      this.(parentId := span)
    }
  }

  predicate LowerHex(s: string)
  {
    forall i :: 0 <= i < |s| ==> '0' <= s[i] <= '9' || 'a' <= s[i] <= 'f'
  }

  predicate AllZero(s: string)
  {
    forall i :: 0 <= i < |s| ==> s[i] == '0'
  }

  lemma HexDigit(c: char)
    ensures '0' <= c <= '9' || 'a' <= c <= 'f' <==> c in "0123456789abcdef"
  {
    var digits := "0123456789abcdef";
    if '0' <= c <= '9' {
      assert digits[c as int - '0' as int] == c;
    } else if 'a' <= c <= 'f' {
      assert digits[c as int - 'a' as int + 10] == c;
    }
  }

  /** The accepted characters. */
  lemma LowerHexExactly(s: string)
    ensures LowerHex(s) <==> forall i :: 0 <= i < |s| ==> s[i] in "0123456789abcdef"
  {
    forall i | 0 <= i < |s|
      ensures '0' <= s[i] <= '9' || 'a' <= s[i] <= 'f' <==> s[i] in "0123456789abcdef"
    {
      HexDigit(s[i]);
    }
  }

  /** What the standard allows: lower-case hex of the right widths, no reserved version, no all-zero id. */
  predicate Valid(c: TraceContext)
  {
    && |c.version| == 2 && |c.traceId| == 32 && |c.parentId| == 16 && |c.flags| == 2
    && LowerHex(c.version) && LowerHex(c.traceId) && LowerHex(c.parentId) && LowerHex(c.flags)
    && c.version != "ff" && !AllZero(c.traceId) && !AllZero(c.parentId)
  }

  /** The groups of _TRACEPARENT_RE. Its final `$` also matches in front of a trailing line feed. */
  function Groups(value: string): Option<TraceContext>
  {
    var v := if |value| == 56 && value[55] == '\n' then value[..55] else value;
    if |v| == 55 && LowerHex(v[..2]) && v[2] == '-' && LowerHex(v[3..35]) && v[35] == '-'
       && LowerHex(v[36..52]) && v[52] == '-' && LowerHex(v[53..])
    then Some(TraceContext(v[3..35], v[36..52], v[53..], v[..2]))
    else None
  }

  const ZERO_TRACE: string := "00000000000000000000000000000000"
  const ZERO_SPAN: string := "0000000000000000"

  /** `parse_traceparent`; no header reads as the empty one. */
  function Parse(header: Option<string>): Option<TraceContext>
  {
    if header.None? || header.value == "" then None
    else
      var m := Groups(Strip(FirstPart(header.value, ',')));
      if m.None? || m.value.version == "ff" then None
      else if m.value.traceId == ZERO_TRACE || m.value.parentId == ZERO_SPAN then None
      else m
  }

  lemma ZeroIds(trace: string, span: string)
    requires |trace| == 32 && |span| == 16
    ensures AllZero(trace) <==> trace == ZERO_TRACE
    ensures AllZero(span) <==> span == ZERO_SPAN
  {
    assert AllZero(ZERO_TRACE) && AllZero(ZERO_SPAN);
    if AllZero(trace) {
      assert forall i :: 0 <= i < 32 ==> trace[i] == ZERO_TRACE[i];
    }
    if AllZero(span) {
      assert forall i :: 0 <= i < 16 ==> span[i] == ZERO_SPAN[i];
    }
  }

  /** The pattern takes exactly the header apart. */
  lemma GroupsOfHeader(c: TraceContext)
    requires |c.version| == 2 && |c.traceId| == 32 && |c.parentId| == 16 && |c.flags| == 2
    requires LowerHex(c.version) && LowerHex(c.traceId) && LowerHex(c.parentId) && LowerHex(c.flags)
    ensures Groups(c.ToHeader()) == Some(c)
    ensures ',' !in c.ToHeader() && Trimmed(c.ToHeader())
  {
    var h := c.ToHeader();
    assert h[..2] == c.version && h[3..35] == c.traceId && h[36..52] == c.parentId && h[53..] == c.flags;
    assert h[0] == c.version[0] && h[54] == c.flags[1];
    forall i | 0 <= i < |h|
      ensures h[i] != ','
    {
      if i == 2 || i == 35 || i == 52 {
        assert h[i] == '-';
      } else if i < 2 {
        assert h[i] == c.version[i];
      } else if i < 35 {
        assert h[i] == c.traceId[i - 3];
      } else if i < 52 {
        assert h[i] == c.parentId[i - 36];
      } else {
        assert h[i] == c.flags[i - 53];
      }
    }
  }

  /** A trimmed value that the pattern matches is the header of its groups. */
  lemma HeaderOfGroups(value: string)
    requires Trimmed(value) && Groups(value).Some?
    ensures Groups(value).value.ToHeader() == value
  {
    var c := Groups(value).value;
    assert |value| == 55;
    assert value == value[..2] + [value[2]] + value[3..35] + [value[35]] + value[36..52] + [value[52]] + value[53..];
  }

  /** Round trip: the header of any valid context, padded with spaces and followed by any further values of a
      repeated header, parses back to that context. */
  lemma ParsesBack(c: TraceContext, before: string, after: string, more: string)
    requires Valid(c) && AllSpace(before) && AllSpace(after) && (more != "" ==> more[0] == ',')
    ensures Parse(Some(before + c.ToHeader() + after + more)) == Some(c)
  {
    GroupsOfHeader(c);
    ZeroIds(c.traceId, c.parentId);
    FirstPartOf(before + c.ToHeader() + after, ',', more);
    StripOf(before, c.ToHeader(), after);
  }

  lemma RoundTrip(c: TraceContext)
    requires Valid(c)
    ensures Parse(Some(c.ToHeader())) == Some(c)
  {
    ParsesBack(c, "", "", "");
    assert "" + c.ToHeader() + "" + "" == c.ToHeader();
  }

  /** Printing what was parsed gives the trimmed first value of the header. */
  lemma PrintsBack(h: string)
    requires Parse(Some(h)).Some?
    ensures Parse(Some(h)).value.ToHeader() == Strip(FirstPart(h, ','))
    ensures Valid(Parse(Some(h)).value)
  {
    var value := Strip(FirstPart(h, ','));
    var a, b := StripSplits(FirstPart(h, ','));
    HeaderOfGroups(value);
    ZeroIds(Parse(Some(h)).value.traceId, Parse(Some(h)).value.parentId);
  }

  /** Parsing gives c exactly when c is valid and its header is the trimmed first value; nothing else parses. */
  lemma ParsesExactly(header: Option<string>, c: TraceContext)
    ensures Parse(header) == Some(c) <==>
              Valid(c) && header.Some? && Strip(FirstPart(header.value, ',')) == c.ToHeader()
  {
    if Parse(header) == Some(c) {
      PrintsBack(header.value);
    }
    if Valid(c) && header.Some? && Strip(FirstPart(header.value, ',')) == c.ToHeader() {
      GroupsOfHeader(c);
      ZeroIds(c.traceId, c.parentId);
    }
  }

  /** A header is passed over exactly when its trimmed first value is no valid context's header. */
  lemma RejectsExactly(header: Option<string>)
    ensures Parse(header) == None <==>
              header.Some? ==>
                forall c: TraceContext :: Valid(c) ==> c.ToHeader() != Strip(FirstPart(header.value, ','))
  {
    if Parse(header).Some? {
      ParsesExactly(header, Parse(header).value);
    } else if header.Some? {
      forall c: TraceContext | Valid(c)
        ensures c.ToHeader() != Strip(FirstPart(header.value, ','))
      {
        ParsesExactly(header, c);
      }
    }
  }

  /** Two valid contexts with the same header are the same. */
  lemma HeaderInjective(c: TraceContext, d: TraceContext)
    requires Valid(c) && Valid(d) && c.ToHeader() == d.ToHeader()
    ensures c == d
  {
    RoundTrip(c);
    RoundTrip(d);
  }

  /** The next hop reads back the same trace with the new span. */
  lemma ChildReachesNextHop(h: Option<string>, span: string)
    requires Parse(h).Some? && |span| == 16 && LowerHex(span) && !AllZero(span)
    ensures var c := Parse(h).value;
            Parse(Some(c.Child(span).ToHeader())) == Some(c.(parentId := span))
  {
    PrintsBack(h.value);
    RoundTrip(Parse(h).value.Child(span));
  }
}
