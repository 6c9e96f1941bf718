/** The JSONL reader of shared/conversations.py: complete lines only, a cache of the newest entries per path, and a
    filtered, limited answer. `parse` stands for json.loads on a stripped line (None is a JSONDecodeError), and
    `stamp` for the parsed `ts` of an entry (None when it has none that can be compared). */
module Jsonl {
  import opened Seqs
  import opened Text

  type Parser<E> = string -> Option<E>

  // ---------- lines ----------

  /** The position after the first newline at or after `at`. */
  function LineEnd(text: string, at: nat): (end: Option<nat>)
    requires at <= |text|
    ensures end.Some? ==> at < end.value <= |text| && text[end.value - 1] == '\n'
    decreases |text| - at
  {
    if at == |text| then None
    else if text[at] == '\n' then Some(at + 1)
    else LineEnd(text, at + 1)
  }

  /** `f.readline()` at a position: up to and including the next newline, or the rest. */
  function ReadLine(text: string, at: nat): string
    requires at <= |text|
  {
    var end := LineEnd(text, at);
    if end.Some? then text[at..end.value] else text[at..]
  }

  /** What one complete line contributes: nothing when it is blank or does not parse. */
  function LineEntry<E>(line: string, parse: Parser<E>): seq<E>
  {
    var stripped := Strip(line);
    if stripped == "" || parse(stripped).None? then [] else [parse(stripped).value]
  }

  /** A padded line contributes its record, and a blank or malformed one nothing. */
  lemma LineContributes<E>(before: string, core: string, after: string, parse: Parser<E>)
    requires AllSpace(before) && AllSpace(after) && Trimmed(core)
    ensures LineEntry(before + core + after, parse)
            == if core == "" then [] else match parse(core) case Some(e) => [e] case None => []
  {
    StripOf(before, core, after);
  }

  /** The entries of a file from a position on: those of its complete lines, in order. */
  function Entries<E>(text: string, at: nat, parse: Parser<E>): seq<E>
    requires at <= |text|
    decreases |text| - at
  {
    var end := LineEnd(text, at);
    if end.None? then [] else LineEntry(text[at..end.value], parse) + Entries(text, end.value, parse)
  }

  /** Where the last complete line ends. */
  function SafeOffset(text: string, at: nat): (n: nat)
    requires at <= |text|
    ensures at <= n <= |text|
    decreases |text| - at
  {
    var end := LineEnd(text, at);
    if end.None? then at else SafeOffset(text, end.value)
  }

  /** No line ends in text[from..to]. */
  predicate NoLineEnd(text: string, from: nat, to: nat)
    requires from <= to <= |text|
  {
    forall i :: from <= i < to ==> text[i] != '\n'
  }

  lemma {:induction false} LineEndIsFirst(text: string, at: nat)
    requires at <= |text|
    ensures var end := LineEnd(text, at);
            NoLineEnd(text, at, if end.None? then |text| else end.value - 1)
    decreases |text| - at
  {
    if at < |text| && text[at] != '\n' {
      LineEndIsFirst(text, at + 1);
    }
  }

  lemma {:induction false} LineEndOf(text: string, at: nat, end: nat)
    requires at < end <= |text| && NoLineEnd(text, at, end - 1) && text[end - 1] == '\n'
    ensures LineEnd(text, at) == Some(end)
    decreases end - at
  {
    if at + 1 < end {
      LineEndOf(text, at + 1, end);
    }
  }

  /** The safe offset comes right after a newline, or at the start; and after it there is no other. */
  lemma {:induction false} SafeOffsetIsLastNewline(text: string, at: nat)
    requires at <= |text|
    ensures var n := SafeOffset(text, at);
            (n > at ==> text[n - 1] == '\n') && NoLineEnd(text, n, |text|)
    decreases |text| - at
  {
    LineEndIsFirst(text, at);
    if LineEnd(text, at).Some? {
      SafeOffsetIsLastNewline(text, LineEnd(text, at).value);
    }
  }

  /** Nothing of a torn line is used and nothing of it is lost: whatever the file grows by, its entries are those
      read so far and then those from the safe offset on. */
  lemma {:induction false} TornTailRetried<E>(text: string, longer: string, at: nat, parse: Parser<E>)
    requires at <= |text| && text <= longer
    ensures Entries(longer, at, parse) == Entries(text, at, parse) + Entries(longer, SafeOffset(text, at), parse)
    decreases |text| - at
  {
    var end := LineEnd(text, at);
    if end.Some? {
      LineEndIsFirst(text, at);
      LineEndOf(longer, at, end.value);
      assert longer[at..end.value] == text[at..end.value];
      TornTailRetried(text, longer, end.value, parse);
      Associative(LineEntry(text[at..end.value], parse), Entries(text, end.value, parse),
                  Entries(longer, SafeOffset(text, at), parse));
    }
  }

  /** An earlier read of a growing file is a prefix of a later one. */
  lemma EarlierReadIsPrefix<E>(text: string, longer: string, parse: Parser<E>)
    requires text <= longer
    ensures Entries(text, 0, parse) <= Entries(longer, 0, parse)
  {
    TornTailRetried(text, longer, 0, parse);
  }

  // ---------- written files ----------

  /** Lines written one after another, each with its newline. */
  function Written(lines: seq<string>): string
  {
    if lines == [] then "" else Written(lines[..|lines| - 1]) + (lines[|lines| - 1] + "\n")
  }

  function Newlines(text: string): nat
  {
    if text == "" then 0 else Newlines(text[..|text| - 1]) + if text[|text| - 1] == '\n' then 1 else 0
  }

  function AllEntries<E>(lines: seq<string>, parse: Parser<E>): seq<E>
  {
    if lines == [] then []
    else AllEntries(lines[..|lines| - 1], parse) + LineEntry(lines[|lines| - 1] + "\n", parse)
  }

  ghost predicate OneLineEach(lines: seq<string>)
  {
    forall i :: 0 <= i < |lines| ==> '\n' !in lines[i]
  }

  lemma {:induction false} NewlinesConcat(a: string, b: string)
    ensures Newlines(a + b) == Newlines(a) + Newlines(b)
    decreases |b|
  {
    if b == "" {
      assert a + b == a;
    } else {
      assert (a + b)[..|a + b| - 1] == a + b[..|b| - 1];
      NewlinesConcat(a, b[..|b| - 1]);
    }
  }

  lemma {:induction false} NoNewlines(line: string)
    requires '\n' !in line
    ensures Newlines(line) == 0
  {
    if line != "" {
      NoNewlines(line[..|line| - 1]);
    }
  }

  /** Text without a newline after complete lines adds nothing. */
  lemma TornLineAdds<E>(text: string, torn: string, parse: Parser<E>)
    requires SafeOffset(text, 0) == |text| && '\n' !in torn
    ensures Entries(text + torn, 0, parse) == Entries(text, 0, parse)
    ensures Newlines(text + torn) == Newlines(text)
  {
    var longer := text + torn;
    TornTailRetried(text, longer, 0, parse);
    assert forall i :: |text| <= i < |longer| ==> longer[i] == torn[i - |text|];
    assert LineEnd(longer, |text|).None?;
    NewlinesConcat(text, torn);
    NoNewlines(torn);
    AppendNothing(Entries(text, 0, parse));
  }

  lemma LastLine(text: string, line: string)
    requires '\n' !in line
    ensures var longer := text + (line + "\n");
            && LineEnd(longer, |text|) == Some(|longer|)
            && longer[|text|..|longer|] == line + "\n"
            && LineEnd(longer, |longer|) == None
  {
    var longer := text + (line + "\n");
    assert forall i :: |text| <= i < |longer| - 1 ==> longer[i] == line[i - |text|];
    LineEndOf(longer, |text|, |longer|);
  }

  lemma {:induction false} SafeOffsetGrows(text: string, longer: string, at: nat)
    requires at <= |text| && text <= longer
    ensures SafeOffset(longer, at) == SafeOffset(longer, SafeOffset(text, at))
    decreases |text| - at
  {
    var end := LineEnd(text, at);
    if end.Some? {
      LineEndIsFirst(text, at);
      LineEndOf(longer, at, end.value);
      SafeOffsetGrows(text, longer, end.value);
    }
  }

  /** A line with its newline after complete lines adds its entry. */
  lemma CompleteLineAdds<E>(text: string, line: string, parse: Parser<E>)
    requires SafeOffset(text, 0) == |text| && '\n' !in line
    ensures Entries(text + (line + "\n"), 0, parse) == Entries(text, 0, parse) + LineEntry(line + "\n", parse)
    ensures SafeOffset(text + (line + "\n"), 0) == |text + (line + "\n")|
  {
    var longer := text + (line + "\n");
    LastLine(text, line);
    TornTailRetried(text, longer, 0, parse);
    SafeOffsetGrows(text, longer, 0);
    AppendNothing(LineEntry(line + "\n", parse));
  }

  lemma OneNewline()
    ensures Newlines("\n") == 1
  {
    assert "\n"[..0] == "";
  }

  lemma CompleteLineCounts(text: string, line: string)
    requires '\n' !in line
    ensures Newlines(text + (line + "\n")) == Newlines(text) + 1
  {
    NewlinesConcat(text, line + "\n");
    NewlinesConcat(line, "\n");
    NoNewlines(line);
    OneNewline();
  }

  lemma {:induction false} WrittenIsComplete<E>(lines: seq<string>, parse: Parser<E>)
    requires OneLineEach(lines)
    ensures SafeOffset(Written(lines), 0) == |Written(lines)|
    ensures Newlines(Written(lines)) == |lines|
    ensures Entries(Written(lines), 0, parse) == AllEntries(lines, parse)
  {
    if lines != [] {
      var init, line := lines[..|lines| - 1], lines[|lines| - 1];
      WrittenIsComplete(init, parse);
      CompleteLineAdds(Written(init), line, parse);
      CompleteLineCounts(Written(init), line);
    }
  }

  lemma PrefixOf<T>(a: seq<T>, b: seq<T>, k: nat)
    requires a <= b && k <= |a|
    ensures a[..k] == b[..k]
  {
  }

  lemma TornInside<E>(lines: seq<string>, k: nat, parse: Parser<E>)
    requires OneLineEach(lines) && lines != []
    requires |Written(lines[..|lines| - 1])| <= k < |Written(lines)|
    ensures Newlines(Written(lines)[..k]) == |lines| - 1
    ensures Entries(Written(lines)[..k], 0, parse) == AllEntries(lines[..|lines| - 1], parse)
  {
    var init, line := lines[..|lines| - 1], lines[|lines| - 1];
    var before := Written(init);
    var torn := line[..k - |before|];
    WrittenIsComplete(init, parse);
    TornLineAdds(before, torn, parse);
    assert Written(lines)[..k] == before + torn;
  }

  /** Reading any byte prefix gives the entries of exactly the lines whose newline is in it, whatever the other
      lines hold: a malformed or torn line never spoils its neighbours. */
  lemma {:induction false} PrefixReadsCompleteLines<E>(lines: seq<string>, k: nat, parse: Parser<E>)
    requires OneLineEach(lines) && k <= |Written(lines)|
    ensures Newlines(Written(lines)[..k]) <= |lines|
    ensures Entries(Written(lines)[..k], 0, parse) == AllEntries(lines[..Newlines(Written(lines)[..k])], parse)
  {
    if k == |Written(lines)| {
      WrittenIsComplete(lines, parse);
      assert Written(lines)[..k] == Written(lines) && lines[..|lines|] == lines;
    } else {
      var init := lines[..|lines| - 1];
      if k <= |Written(init)| {
        PrefixReadsCompleteLines(init, k, parse);
        PrefixOf(Written(init), Written(lines), k);
        PrefixOf(init, lines, Newlines(Written(init)[..k]));
      } else {
        TornInside(lines, k, parse);
      }
    }
  }

  /** `encode` is what the writer makes of a record: one line that is not blank and parses back. */
  ghost predicate ParsesBack<E>(records: seq<E>, encode: E -> string, parse: Parser<E>)
  {
    forall i :: 0 <= i < |records| ==>
      var line := encode(records[i]);
      '\n' !in line && Strip(line + "\n") != "" && parse(Strip(line + "\n")) == Some(records[i])
  }

  function Encoded<E>(records: seq<E>, encode: E -> string): seq<string>
  {
    seq(|records|, i requires 0 <= i < |records| => encode(records[i]))
  }

  lemma {:induction false} EncodedEntries<E>(records: seq<E>, encode: E -> string, parse: Parser<E>)
    requires ParsesBack(records, encode, parse)
    ensures AllEntries(Encoded(records, encode), parse) == records
  {
    if records != [] {
      var init := records[..|records| - 1];
      EncodedEntries(init, encode, parse);
      assert Encoded(records, encode)[..|init|] == Encoded(init, encode);
      assert LineEntry(encode(records[|init|]) + "\n", parse) == [records[|init|]];
      assert init + [records[|init|]] == records;
    }
  }

  /** Torn reads are safe: reading any prefix of a written log gives exactly the records whose newline is there. */
  lemma TornReadSafe<E>(records: seq<E>, k: nat, encode: E -> string, parse: Parser<E>)
    requires ParsesBack(records, encode, parse) && k <= |Written(Encoded(records, encode))|
    ensures var text := Written(Encoded(records, encode))[..k];
            Newlines(text) <= |records| && Entries(text, 0, parse) == records[..Newlines(text)]
  {
    var lines := Encoded(records, encode);
    assert OneLineEach(lines);
    PrefixReadsCompleteLines(lines, k, parse);
    var m := Newlines(Written(lines)[..k]);
    assert lines[..m] == Encoded(records[..m], encode);
    EncodedEntries(records[..m], encode, parse);
  }

  // ---------- filter and limit ----------

  /** Without a lower bound every entry is kept; with one, those whose timestamp parses and is not below it. */
  predicate Keeps<E>(e: E, since: Option<int>, stamp: E -> Option<int>)
  {
    since.None? || (stamp(e).Some? && since.value <= stamp(e).value)
  }

  function Kept<E>(entries: seq<E>, since: Option<int>, stamp: E -> Option<int>): seq<E>
  {
    if entries == [] then []
    else
      var e := entries[|entries| - 1];
      Kept(entries[..|entries| - 1], since, stamp) + if Keeps(e, since, stamp) then [e] else []
  }

  /** `_filter_and_limit`; None is the ValueError of a deque with a negative bound. */
  function Answered<E>(entries: seq<E>, since: Option<int>, limit: Option<int>, stamp: E -> Option<int>): Option<seq<E>>
  {
    if limit.None? then Some(Kept(entries, since, stamp))
    else if limit.value < 0 then None
    else Some(LastN(Kept(entries, since, stamp), limit.value))
  }

  lemma {:induction false} KeptAt<E>(entries: seq<E>, since: Option<int>, stamp: E -> Option<int>)
      returns (at: seq<nat>)
    ensures Selected(entries, at, Kept(entries, since, stamp))
    ensures forall i :: 0 <= i < |entries| ==> (i in at <==> Keeps(entries[i], since, stamp))
  {
    if entries == [] {
      at := [];
    } else {
      var init := entries[..|entries| - 1];
      var before := KeptAt(init, since, stamp);
      at := before + if Keeps(entries[|init|], since, stamp) then [|init|] else [];
      forall i | 0 <= i < |entries|
        ensures i in at <==> Keeps(entries[i], since, stamp)
      {
        assert i < |init| ==> init[i] == entries[i];
      }
    }
  }

  /** The answer in terms of its entries: in their order, those stamped at or after `since`, all of them without a
      `since`; with a limit n the last n of those, fewer if there are fewer. */
  lemma AnswersExactly<E>(entries: seq<E>, since: Option<int>, limit: Option<int>, stamp: E -> Option<int>)
      returns (at: seq<nat>, all: seq<E>)
    ensures Selected(entries, at, all)
    ensures forall i :: 0 <= i < |entries| ==>
              (i in at <==> since.None? || (stamp(entries[i]).Some? && stamp(entries[i]).value >= since.value))
    ensures limit.None? ==> Answered(entries, since, limit, stamp) == Some(all)
    ensures limit.Some? && limit.value >= 0 ==>
              Answered(entries, since, limit, stamp)
              == Some(if limit.value < |all| then all[|all| - limit.value..] else all)
    ensures limit.Some? && limit.value < 0 ==> Answered(entries, since, limit, stamp) == None
  {
    at := KeptAt(entries, since, stamp);
    all := Kept(entries, since, stamp);
  }

  /** What the cache keeps of a file's entries: `entries[-cap:]` once there are more than `cap`. */
  function Capped<E>(entries: seq<E>, cap: int): seq<E>
  {
    if |entries| > cap then TailSlice(entries, cap) else entries
  }

  lemma {:induction false} KeptConcat<E>(a: seq<E>, b: seq<E>, since: Option<int>, stamp: E -> Option<int>)
    ensures Kept(a + b, since, stamp) == Kept(a, since, stamp) + Kept(b, since, stamp)
    decreases |b|
  {
    if b == [] {
      assert a + b == a;
    } else {
      assert (a + b)[..|a + b| - 1] == a + b[..|b| - 1];
      KeptConcat(a, b[..|b| - 1], since, stamp);
    }
  }

  /** The entries the cap cuts off: for a cap of zero or less Python's slice cuts nothing, or the first -cap. */
  lemma CapCutsFront<E>(entries: seq<E>, cap: int) returns (dropped: seq<E>)
    ensures entries == dropped + Capped(entries, cap)
    ensures |dropped| == if |entries| <= cap then 0
                         else if cap > 0 then |entries| - cap
                         else if -cap <= |entries| then -cap else |entries|
  {
    dropped := entries[..|entries| - |Capped(entries, cap)|];
  }

  lemma SuffixOfConcat<E>(a: seq<E>, b: seq<E>)
    ensures IsSuffix(b, a + b)
  {
  }

  lemma LastNIsSuffix<E>(s: seq<E>, n: nat)
    ensures IsSuffix(LastN(s, n), s)
  {
  }

  lemma LimitSound<E>(cut: seq<E>, kept: seq<E>, limit: Option<int>)
    requires limit.Some? ==> limit.value >= 0
    ensures var answer := if limit.None? then kept else LastN(kept, limit.value);
            var full := if limit.None? then cut + kept else LastN(cut + kept, limit.value);
            && IsSuffix(answer, cut + kept)
            && IsSuffix(answer, full)
            && (answer == full <==> cut == [] || (limit.Some? && limit.value <= |kept|))
  {
    SuffixOfConcat(cut, kept);
    if limit.Some? {
      LastNIsSuffix(kept, limit.value);
      if limit.value <= |kept| {
        LastNConcat(cut, kept, limit.value);
      } else if cut == [] {
        assert cut + kept == kept;
      }
    }
  }

  /** For every cap, the answer from the capped entries is a suffix of the answer without cap and limit. It is the
      answer to the same query without the cap exactly when enough entries were kept for the limit, or nothing
      that the query keeps was cut off. */
  lemma CapSound<E>(entries: seq<E>, cap: int, since: Option<int>, limit: Option<int>, stamp: E -> Option<int>)
    requires limit.Some? ==> limit.value >= 0
    ensures var (kept, all) := (Kept(Capped(entries, cap), since, stamp), Kept(entries, since, stamp));
            var answer := Answered(Capped(entries, cap), since, limit, stamp).value;
            var full := Answered(entries, since, limit, stamp).value;
            && IsSuffix(answer, all)
            && IsSuffix(answer, full)
            && (answer == full <==> |all| == |kept| || (limit.Some? && limit.value <= |kept|))
  {
    var dropped := CapCutsFront(entries, cap);
    KeptConcat(dropped, Capped(entries, cap), since, stamp);
    LimitSound(Kept(dropped, since, stamp), Kept(Capped(entries, cap), since, stamp), limit);
  }

  // ---------- the cache ----------

  datatype Stat = Stat(inode: int, size: int, mtime: int)

  datatype Slot<E> = Slot(stat: Stat, offset: nat, entries: seq<E>)

  type Cache<E> = map<string, Slot<E>>

  /** One call: what os.stat and open found (None is FileNotFoundError), and the query. */
  datatype Call = Call(path: string, stat: Option<Stat>, text: Option<string>, since: Option<int>, limit: Option<int>)

  /** How entries are cut, parsed and dated. */
  datatype Reader<!E> = Reader(cap: int, parse: Parser<E>, stamp: E -> Option<int>)

  predicate Hit<E>(cache: Cache<E>, call: Call)
  {
    call.stat.Some? && call.path in cache && cache[call.path].stat == call.stat.value
  }

  function Parsed<E>(text: string, stat: Stat, r: Reader<E>): Slot<E>
  {
    Slot(stat, SafeOffset(text, 0), Capped(Entries(text, 0, r.parse), r.cap))
  }

  function Query<E>(entries: seq<E>, call: Call, r: Reader<E>): Option<seq<E>>
  {
    Answered(entries, call.since, call.limit, r.stamp)
  }

  /** The cache after `_read_jsonl`: any change of the stat key means reading the whole file again. */
  function CacheAfter<E>(cache: Cache<E>, call: Call, r: Reader<E>): Cache<E>
  {
    if call.stat.None? || call.text.None? || Hit(cache, call) then cache
    else cache[call.path := Parsed(call.text.value, call.stat.value, r)]
  }

  /** What `_read_jsonl` returns; None is the ValueError. */
  function Answer<E>(cache: Cache<E>, call: Call, r: Reader<E>): Option<seq<E>>
  {
    if call.stat.None? then Some([])
    else if Hit(cache, call) then Query(cache[call.path].entries, call, r)
    else if call.text.None? then Some([])
    else Query(Parsed(call.text.value, call.stat.value, r).entries, call, r)
  }

  function AfterCalls<E>(calls: seq<Call>, r: Reader<E>): Cache<E>
  {
    if calls == [] then map[]
    else CacheAfter(AfterCalls(calls[..|calls| - 1], r), calls[|calls| - 1], r)
  }

  /** A path and its stat key determine what is in the file. */
  type Contents = (string, Stat) -> string

  predicate Honest(call: Call, contents: Contents)
  {
    call.stat.Some? && call.text.Some? ==> call.text.value == contents(call.path, call.stat.value)
  }

  ghost predicate CacheTrue<E>(cache: Cache<E>, contents: Contents, r: Reader<E>)
  {
    forall p :: p in cache ==> cache[p] == Parsed(contents(p, cache[p].stat), cache[p].stat, r)
  }

  lemma {:induction false} CacheStaysTrue<E>(calls: seq<Call>, contents: Contents, r: Reader<E>)
    requires forall i :: 0 <= i < |calls| ==> Honest(calls[i], contents)
    ensures CacheTrue(AfterCalls(calls, r), contents, r)
  {
    if calls != [] {
      CacheStaysTrue(calls[..|calls| - 1], contents, r);
    }
  }

  /** After any calls, an answer comes from the capped entries of the file as it is now, or is empty because the
      file is gone. */
  lemma AnswersAreCurrent<E>(calls: seq<Call>, call: Call, contents: Contents, r: Reader<E>)
    requires Honest(call, contents) && forall i :: 0 <= i < |calls| ==> Honest(calls[i], contents)
    ensures Answer(AfterCalls(calls, r), call, r)
            == if call.stat.None? || (call.text.None? && !Hit(AfterCalls(calls, r), call)) then Some([])
               else Query(Capped(Entries(contents(call.path, call.stat.value), 0, r.parse), r.cap), call, r)
  {
    CacheStaysTrue(calls, contents, r);
  }

  /** Unless the file vanishes between stat and open, the cache is invisible: any history of calls leaves the
      answer that a fresh process would give. */
  lemma CacheIsTransparent<E>(calls: seq<Call>, call: Call, contents: Contents, r: Reader<E>)
    requires Honest(call, contents) && forall i :: 0 <= i < |calls| ==> Honest(calls[i], contents)
    requires call.stat.Some? ==> call.text.Some?
    ensures Answer(AfterCalls(calls, r), call, r) == Answer(map[], call, r)
  {
    CacheStaysTrue(calls, contents, r);
  }

  /** Polling an unchanged file again opens nothing: the same path and stat key get the same entries, whether or not
      the file can still be opened and whatever it holds. */
  lemma UnchangedIsNotRead<E>(calls: seq<Call>, call: Call, text: Option<string>, r: Reader<E>)
    requires call.stat.Some? && call.text.Some?
    ensures Answer(AfterCalls(calls + [call], r), call.(text := text), r) == Answer(AfterCalls(calls, r), call, r)
    ensures AfterCalls(calls + [call] + [call.(text := text)], r) == AfterCalls(calls + [call], r)
  {
    var again := call.(text := text);
    assert (calls + [call])[..|calls|] == calls;
    assert (calls + [call] + [again])[..|calls + [call]|] == calls + [call];
  }

  /** Whatever was called before and whatever the cap, an answer is a suffix of the uncached, uncapped, unlimited
      one; only a negative limit raises. */
  lemma CachedAnswerIsSuffix<E>(calls: seq<Call>, call: Call, contents: Contents, r: Reader<E>)
    requires Honest(call, contents) && forall i :: 0 <= i < |calls| ==> Honest(calls[i], contents)
    requires call.stat.Some?
    ensures var answer := Answer(AfterCalls(calls, r), call, r);
            && (answer.None? ==> call.limit.Some? && call.limit.value < 0)
            && (answer.Some? ==>
                  IsSuffix(answer.value,
                           Kept(Entries(contents(call.path, call.stat.value), 0, r.parse), call.since, r.stamp)))
  {
    AnswersAreCurrent(calls, call, contents, r);
    if call.limit.None? || call.limit.value >= 0 {
      CapSound(Entries(contents(call.path, call.stat.value), 0, r.parse), r.cap, call.since, call.limit, r.stamp);
    }
  }

  // ---------- the reader ----------

  lemma NextLine<E>(text: string, entries: seq<E>, at: nat, end: nat, parse: Parser<E>)
    requires at <= |text| && LineEnd(text, at) == Some(end)
    ensures entries + Entries(text, at, parse)
            == (entries + LineEntry(text[at..end], parse)) + Entries(text, end, parse)
    ensures SafeOffset(text, at) == SafeOffset(text, end)
  {
    Associative(entries, LineEntry(text[at..end], parse), Entries(text, end, parse));
  }

  /** `f.readline()` and the `f.tell()` after it. */
  method Readline(text: string, at: nat) returns (line: string, tell: nat)
    requires at <= |text|
    ensures line == ReadLine(text, at)
    ensures line == "" || line[|line| - 1] != '\n' <==> LineEnd(text, at).None?
    ensures LineEnd(text, at).Some? ==> LineEnd(text, at) == Some(tell) && line == text[at..tell]
  {
    line := ReadLine(text, at);
    tell := at + |line|;
    LineEndIsFirst(text, at);
  }

  /** The body of the read loop for a complete line. */
  method ParseLine<E>(line: string, parse: Parser<E>) returns (found: seq<E>)
    ensures found == LineEntry(line, parse)
  {
    var stripped := Strip(line);
    if stripped == "" {
      return [];
    }
    var entry := parse(stripped);
    if entry.None? {
      return [];
    }
    return [entry.value];
  }

  /** The loop of `_read_jsonl` over an open file. */
  method ReadLines<E>(text: string, parse: Parser<E>) returns (entries: seq<E>, safeOffset: nat)
    ensures entries == Entries(text, 0, parse) && safeOffset == SafeOffset(text, 0)
  {
    entries, safeOffset := [], 0;
    while true
      invariant safeOffset <= |text|
      invariant Entries(text, 0, parse) == entries + Entries(text, safeOffset, parse)
      invariant SafeOffset(text, 0) == SafeOffset(text, safeOffset)
      decreases |text| - safeOffset
    {
      var line, tell := Readline(text, safeOffset);
      if line == "" {
        break;
      }
      if line[|line| - 1] != '\n' {
        break;
      }
      NextLine(text, entries, safeOffset, tell, parse);
      var found := ParseLine(line, parse);
      entries, safeOffset := entries + found, tell;
    }
    AppendNothing(entries);
  }

  lemma KeptSnoc<E>(entries: seq<E>, e: E, since: Option<int>, stamp: E -> Option<int>)
    ensures Kept(entries + [e], since, stamp)
            == if Keeps(e, since, stamp) then Kept(entries, since, stamp) + [e] else Kept(entries, since, stamp)
  {
    assert (entries + [e])[..|entries|] == entries;
    AppendNothing(Kept(entries, since, stamp));
  }

  /** The loop of `_filter_and_limit` into a bounded deque. */
  method FilterAndLimit<E>(entries: seq<E>, since: Option<int>, limit: Option<int>, stamp: E -> Option<int>)
      returns (answer: Option<seq<E>>)
    ensures answer == Answered(entries, since, limit, stamp)
  {
    if limit.Some? && limit.value < 0 {
      return None;
    }
    var out := [];
    for i := 0 to |entries|
      invariant Some(out) == Answered(entries[..i], since, limit, stamp)
    {
      KeptSnoc(entries[..i], entries[i], since, stamp);
      assert entries[..i + 1] == entries[..i] + [entries[i]];
      if Keeps(entries[i], since, stamp) {
        if limit.Some? {
          LastNAppend(Kept(entries[..i], since, stamp), entries[i], limit.value);
          out := LastN(out + [entries[i]], limit.value);
        } else {
          out := out + [entries[i]];
        }
      }
    }
    assert entries[..|entries|] == entries;
    answer := Some(out);
  }

  /** The module state `_TAIL_CACHE`. */
  class TailCache<!E> {
    const r: Reader<E>
    var cache: Cache<E>

    constructor (r: Reader<E>)
      ensures this.r == r && cache == map[]
    {
      this.r := r;
      cache := map[];
    }

    /** `_read_jsonl` */
    method ReadJsonl(call: Call) returns (answer: Option<seq<E>>)
      modifies this`cache
      ensures cache == CacheAfter(old(cache), call, r)
      ensures answer == Answer(old(cache), call, r)
    {
      if call.stat.None? {
        return Some([]);
      }
      if call.path in cache && cache[call.path].stat == call.stat.value {
        answer := FilterAndLimit(cache[call.path].entries, call.since, call.limit, r.stamp);
        return;
      }
      if call.text.None? {
        return Some([]);
      }
      var entries, newOffset := ReadLines(call.text.value, r.parse);
      if |entries| > r.cap {
        entries := TailSlice(entries, r.cap);
      }
      cache := cache[call.path := Slot(call.stat.value, newOffset, entries)];
      answer := FilterAndLimit(entries, call.since, call.limit, r.stamp);
    }
  }
}
