/** mcsrc/lib/serialize.c: length-prefixed frames, and the three-state automaton that reads a config back from
    them. Strings have no terminator here and are never NULL; a config stores its strings as they are. */
module Serialize {
  import opened Decimal
  import opened Powers
  import opened Wrappers
  import Sequences

  const DELIMITER: char := ':'
  const BUF_TINY: nat := 64

  datatype Error = Empty | WrongPrefix | NoDelimiter | TooBigLength | TooShort
  datatype Result = Ok(value: string) | Err(error: Error)

  /** strchr: the first c in s, or the length. */
  function Find(s: string, c: char): (k: nat)
    ensures k <= |s| && c !in s[..k]
    ensures k < |s| ==> s[k] == c
  {
    if s == "" || s[0] == c then 0
    else
      var k := Find(s[1..], c) + 1;
      assert s[..k] == [s[0]] + s[1..][..k - 1];
      k
  }

  predicate IsSpace(c: char) { c == ' ' || '\t' <= c <= '\r' }

  /** atol, in unbounded arithmetic: white space, a sign, digits, and whatever follows ignored. */
  function Atol(s: string): int {
    if s != "" && IsSpace(s[0]) then Atol(s[1..])
    else if s != "" && s[0] == '-' then 0 - Leading(s[1..])
    else if s != "" && s[0] == '+' then Leading(s[1..])
    else Leading(s)
  }

  function Leading(s: string): nat {
    Number(s[..DigitCount(s)])
  }

  // ---------------------------------------------------------------- one frame

  /** mc_serialize_str */
  function SerializeStr(prefix: char, data: string): string {
    [prefix] + Dec(|data|) + [DELIMITER] + data
  }

  /** mc_deserialize_str. A negative length becomes a huge size_t, greater than any strlen. */
  function DeserializeStr(prefix: char, data: string): (r: Result)
    ensures r.Ok? ==> data != ""
  {
    if data == "" then Err(Empty)
    else if data[0] != prefix then Err(WrongPrefix)
    else
      var semi := Find(data[1..], DELIMITER);
      if semi == |data| - 1 then Err(NoDelimiter)
      else if semi >= BUF_TINY then Err(TooBigLength)
      else
        var length, rest := Atol(data[1..][..semi]), data[semi + 2..];
        if length < 0 || length > |rest| then Err(TooShort) else Ok(rest[..length])
  }

  /** go_to_end_of_serialized_string: how far the next frame is, None at the end. */
  function GoToEnd(data: string, part: string): (off: Option<nat>)
    requires data != ""
    ensures off.Some? ==> 0 < off.value < |data|
  {
    var calculated := Find(data[1..], DELIMITER) + 2 + |part|;
    if calculated >= |data| then None else Some(calculated)
  }

  /** data is prefix, numeral, delimiter, text, and then the rest. */
  ghost predicate Framed(prefix: char, numeral: string, text: string, rest: string, data: string) {
    data == [prefix] + numeral + [DELIMITER] + text + rest
  }

  lemma {:induction false} FindIs(x: string, c: char, rest: string)
    requires c !in x && (rest == "" || rest[0] == c)
    ensures Find(x + rest, c) == |x|
  {
    if x == "" {
      assert x + rest == rest;
    } else {
      assert (x + rest)[1..] == x[1..] + rest;
      FindIs(x[1..], c, rest);
    }
  }

  lemma FramedAt(prefix: char, numeral: string, text: string, rest: string, data: string)
    requires Framed(prefix, numeral, text, rest, data) && DELIMITER !in numeral
    ensures data[0] == prefix && Find(data[1..], DELIMITER) == |numeral| < |data| - 1
    ensures data[1..][..|numeral|] == numeral && data[|numeral| + 2..] == text + rest
  {
    assert data[1..] == numeral + ([DELIMITER] + text + rest);
    FindIs(numeral, DELIMITER, [DELIMITER] + text + rest);
  }

  /** The reader accepts exactly the texts that start with the prefix, a numeral of fewer than 64 characters, the
      delimiter, and at least as much text as the numeral says; it returns just that much. */
  lemma {:induction false} DeserializeAccepts(prefix: char, data: string, text: string)
    ensures DeserializeStr(prefix, data) == Ok(text) <==>
            exists numeral, rest ::
              Framed(prefix, numeral, text, rest, data) && DELIMITER !in numeral && |numeral| < BUF_TINY
              && Atol(numeral) == |text|
  {
    hide Framed, DeserializeStr, Atol, Find;
    forall numeral, rest | Framed(prefix, numeral, text, rest, data) && DELIMITER !in numeral
      && |numeral| < BUF_TINY && Atol(numeral) == |text|
      ensures DeserializeStr(prefix, data) == Ok(text)
    {
      FramedAccepted(prefix, numeral, text, rest, data);
    }
    if DeserializeStr(prefix, data) == Ok(text) {
      var numeral, rest := AcceptedFramed(prefix, data, text);
    }
  }

  lemma FramedAccepted(prefix: char, numeral: string, text: string, rest: string, data: string)
    requires Framed(prefix, numeral, text, rest, data) && DELIMITER !in numeral
    requires |numeral| < BUF_TINY && Atol(numeral) == |text|
    ensures DeserializeStr(prefix, data) == Ok(text)
  {
    hide Framed, Atol, Find;
    FramedAt(prefix, numeral, text, rest, data);
    Sequences.Parts(text, rest);
  }

  lemma AcceptedFramed(prefix: char, data: string, text: string) returns (numeral: string, rest: string)
    requires DeserializeStr(prefix, data) == Ok(text)
    ensures Framed(prefix, numeral, text, rest, data) && DELIMITER !in numeral
    ensures |numeral| < BUF_TINY && Atol(numeral) == |text|
  {
    hide Atol;
    var semi := Find(data[1..], DELIMITER);
    numeral, rest := data[1..][..semi], data[semi + 2..][|text|..];
    assert data[1..] == numeral + [DELIMITER] + data[semi + 2..];
  }

  /** data is prefix, numeral, delimiter and the rest. */
  ghost predicate Headed(prefix: char, numeral: string, rest: string, data: string) {
    data == [prefix] + numeral + [DELIMITER] + rest && DELIMITER !in numeral
  }

  lemma HeadedAt(prefix: char, numeral: string, rest: string, data: string)
    requires Headed(prefix, numeral, rest, data)
    ensures data != "" && data[0] == prefix && Find(data[1..], DELIMITER) == |numeral| < |data| - 1
    ensures data[1..][..|numeral|] == numeral && data[|numeral| + 2..] == rest
  {
    assert data[1..] == numeral + ([DELIMITER] + rest);
    FindIs(numeral, DELIMITER, [DELIMITER] + rest);
  }

  lemma HeadOf(prefix: char, data: string)
    requires data != "" && data[0] == prefix && DELIMITER in data[1..]
    ensures var semi := Find(data[1..], DELIMITER);
      semi < |data| - 1 && Headed(prefix, data[1..][..semi], data[semi + 2..], data)
  {
    var semi := Find(data[1..], DELIMITER);
    assert data[1..] == data[1..][..semi] + [DELIMITER] + data[semi + 2..];
  }

  /** Which texts are refused, and how: every error has its own texts, and no other text is refused. */
  lemma {:induction false} DeserializeRefuses(prefix: char, data: string)
    ensures DeserializeStr(prefix, data) == Err(Empty) <==> data == ""
    ensures DeserializeStr(prefix, data) == Err(WrongPrefix) <==> data != "" && data[0] != prefix
    ensures DeserializeStr(prefix, data) == Err(NoDelimiter) <==>
            data != "" && data[0] == prefix && DELIMITER !in data[1..]
    ensures DeserializeStr(prefix, data) == Err(TooBigLength) <==>
            exists numeral, rest :: Headed(prefix, numeral, rest, data) && |numeral| >= 64
    ensures DeserializeStr(prefix, data) == Err(TooShort) <==>
            exists numeral, rest :: Headed(prefix, numeral, rest, data) && |numeral| < 64
                                    && !(0 <= Atol(numeral) <= |rest|)
  {
    hide Headed, Find, Atol;
    forall numeral, rest | Headed(prefix, numeral, rest, data)
      ensures data != "" && data[0] == prefix && Find(data[1..], DELIMITER) == |numeral| < |data| - 1
      ensures data[1..][..|numeral|] == numeral && data[|numeral| + 2..] == rest
    {
      HeadedAt(prefix, numeral, rest, data);
    }
    if data != "" && data[0] == prefix {
      FindWhere(data[1..], DELIMITER);
      if DELIMITER in data[1..] {
        HeadOf(prefix, data);
      }
    }
  }

  lemma FindWhere(s: string, c: char)
    ensures Find(s, c) == |s| <==> c !in s
  {
    assert Find(s, c) == |s| ==> s[..Find(s, c)] == s;
  }

  /** Texts whose length fits the numeral buffer. */
  predicate Short(s: string) { |Dec(|s|)| < BUF_TINY }

  /** Whatever fits a 64-bit size_t is short enough. */
  lemma FitsSizeT(s: string)
    requires |s| < 0x1_0000_0000_0000_0000
    ensures Short(s)
  {
    assert Power(10, 20) == 100_000_000_000_000_000_000 by {
      assert Power(10, 5) == 100_000;
      assert Power(10, 10) == 100_000 * Power(10, 5);
      assert Power(10, 15) == 100_000 * Power(10, 10);
      assert Power(10, 20) == 100_000 * Power(10, 15);
    }
    DecLength(|s|, 20);
  }

  lemma AtolOfDec(n: nat)
    ensures Atol(Dec(n)) == n && DELIMITER !in Dec(n)
  {
    var s := Dec(n);
    assert IsDigit(s[0]);
    ReadDec(n, "");
    assert s + "" == s;
    assert forall i :: 0 <= i < |s| ==> IsDigit(s[i]) && s[i] != DELIMITER;
  }

  /** A frame is read back whole, whatever its text and whatever follows, and the next frame starts right
      after it. */
  lemma {:induction false} FrameRoundTrip(prefix: char, text: string, rest: string)
    ensures var data := SerializeStr(prefix, text) + rest;
            && (DeserializeStr(prefix, data) == if Short(text) then Ok(text) else Err(TooBigLength))
            && GoToEnd(data, text) == (if rest == "" then None else Some(|SerializeStr(prefix, text)|))
            && data[|SerializeStr(prefix, text)|..] == rest
  {
    var data := SerializeStr(prefix, text) + rest;
    AtolOfDec(|text|);
    assert Framed(prefix, Dec(|text|), text, rest, data);
    FramedAt(prefix, Dec(|text|), text, rest, data);
    assert (text + rest)[..|text|] == text;
  }

  lemma OtherPrefix(prefix: char, other: char, text: string, rest: string)
    requires prefix != other
    ensures DeserializeStr(other, SerializeStr(prefix, text) + rest) == Err(WrongPrefix)
  {
  }

  // ---------------------------------------------------------------- streams of frames

  datatype Frame = Frame(kind: char, text: string)

  function Text(fs: seq<Frame>): string {
    if fs == [] then "" else SerializeStr(fs[0].kind, fs[0].text) + Text(fs[1..])
  }

  lemma {:induction false} TextSplit(fs: seq<Frame>, gs: seq<Frame>)
    ensures Text(fs + gs) == Text(fs) + Text(gs)
  {
    if fs == [] {
      assert fs + gs == gs;
    } else {
      assert (fs + gs)[1..] == fs[1..] + gs;
      TextSplit(fs[1..], gs);
    }
  }

  ghost predicate AllShort(fs: seq<Frame>) { forall i :: 0 <= i < |fs| ==> Short(fs[i].text) }

  /** Frames delimit themselves: two different lists of frames never give the same text. */
  lemma {:induction false} FramesSelfDelimiting(fs: seq<Frame>, gs: seq<Frame>)
    requires AllShort(fs) && AllShort(gs) && Text(fs) == Text(gs)
    ensures fs == gs
  {
    if fs != [] && gs != [] {
      var f, g := fs[0], gs[0];
      FrameRoundTrip(f.kind, f.text, Text(fs[1..]));
      FrameRoundTrip(g.kind, g.text, Text(gs[1..]));
      assert Text(fs)[0] == f.kind && Text(gs)[0] == g.kind;
      assert f == g;
      FramesSelfDelimiting(fs[1..], gs[1..]);
      assert fs == [f] + fs[1..] && gs == [g] + gs[1..];
    }
  }

  // ---------------------------------------------------------------- configs

  datatype Entry = Entry(key: string, value: string)
  datatype Group = Group(name: string, entries: seq<Entry>)
  type Config = seq<Group>

  ghost predicate DistinctKeys(es: seq<Entry>) {
    forall i, j :: 0 <= i < j < |es| ==> es[i].key != es[j].key
  }

  /** Group names are distinct, and so are the keys of a group. */
  ghost predicate WellFormed(c: Config) {
    && (forall i, j :: 0 <= i < j < |c| ==> c[i].name != c[j].name)
    && (forall i :: 0 <= i < |c| ==> DistinctKeys(c[i].entries))
  }

  function SetEntry(es: seq<Entry>, key: string, value: string): seq<Entry> {
    if es == [] then [Entry(key, value)]
    else if es[0].key == key then [Entry(key, value)] + es[1..]
    else [es[0]] + SetEntry(es[1..], key, value)
  }

  /** mc_config_set_string: replaces the value of a key in place, or appends the key, or the group. */
  function SetString(c: Config, group: string, key: string, value: string): Config {
    if c == [] then [Group(group, [Entry(key, value)])]
    else if c[0].name == group then [Group(group, SetEntry(c[0].entries, key, value))] + c[1..]
    else [c[0]] + SetString(c[1..], group, key, value)
  }

  function GetEntry(es: seq<Entry>, key: string, default: string): string {
    if es == [] then default else if es[0].key == key then es[0].value else GetEntry(es[1..], key, default)
  }

  /** mc_config_get_string_raw */
  function GetString(c: Config, group: string, key: string, default: string): string {
    if c == [] then default
    else if c[0].name == group then GetEntry(c[0].entries, key, default)
    else GetString(c[1..], group, key, default)
  }

  function EntryFrames(es: seq<Entry>): seq<Frame> {
    if es == [] then []
    else EntryFrames(es[..|es| - 1]) + [Frame('p', es[|es| - 1].key), Frame('v', es[|es| - 1].value)]
  }

  function GroupFrames(g: Group): seq<Frame> {
    [Frame('g', g.name)] + EntryFrames(g.entries)
  }

  function ConfigFrames(c: Config): seq<Frame> {
    if c == [] then [] else ConfigFrames(c[..|c| - 1]) + GroupFrames(c[|c| - 1])
  }

  lemma {:induction false} GetEntryAt(es: seq<Entry>, j: nat, default: string)
    requires DistinctKeys(es) && j < |es|
    ensures GetEntry(es, es[j].key, default) == es[j].value
  {
    if j > 0 {
      GetEntryAt(es[1..], j - 1, default);
    }
  }

  lemma {:induction false} GetStringAt(c: Config, i: nat, j: nat, default: string)
    requires WellFormed(c) && i < |c| && j < |c[i].entries|
    ensures GetString(c, c[i].name, c[i].entries[j].key, default) == c[i].entries[j].value
  {
    if i > 0 {
      GetStringAt(c[1..], i - 1, j, default);
    } else {
      GetEntryAt(c[0].entries, j, default);
    }
  }

  /** mc_serialize_config writes the frames of the config: each group, then each of its keys with its value. */
  method SerializeConfig(c: Config) returns (buffer: string)
    requires WellFormed(c)
    ensures buffer == Text(ConfigFrames(c))
  {
    buffer := "";
    var i := 0;
    while i < |c|
      invariant 0 <= i <= |c| && buffer == Text(ConfigFrames(c[..i]))
    {
      var entries := SerializeGroup(c, i);
      TextSplit(ConfigFrames(c[..i]), GroupFrames(c[i]));
      assert c[..i + 1][..i] == c[..i];
      buffer := buffer + entries;
      i := i + 1;
    }
    assert c[..i] == c;
  }

  /** One round of the loop over the groups. */
  method SerializeGroup(c: Config, i: nat) returns (buffer: string)
    requires WellFormed(c) && i < |c|
    ensures buffer == Text(GroupFrames(c[i]))
  {
    var params := c[i].entries;
    ghost var head := Frame('g', c[i].name);
    buffer := SerializeStr('g', c[i].name);
    assert [head][1..] == [] && Text([head]) == buffer + "";
    var j := 0;
    assert params[..0] == [];
    while j < |params|
      invariant 0 <= j <= |params| && buffer == Text([head] + EntryFrames(params[..j]))
    {
      buffer := buffer + SerializeStr('p', params[j].key);
      var value := GetString(c, c[i].name, params[j].key, "");
      GetStringAt(c, i, j, "");
      buffer := buffer + SerializeStr('v', value);
      EntryText(head, params[..j], params[j]);
      assert params[..j + 1] == params[..j] + [params[j]];
      j := j + 1;
    }
    assert params[..j] == params;
  }

  lemma {:induction false} EntryText(head: Frame, es: seq<Entry>, e: Entry)
    ensures Text([head] + EntryFrames(es + [e]))
         == Text([head] + EntryFrames(es)) + SerializeStr('p', e.key) + SerializeStr('v', e.value)
  {
    var p, v := Frame('p', e.key), Frame('v', e.value);
    assert (es + [e])[..|es|] == es;
    assert [head] + EntryFrames(es + [e]) == ([head] + EntryFrames(es)) + [p, v];
    TextSplit([head] + EntryFrames(es), [p, v]);
    assert [p, v][1..] == [v] && [v][1..] == [];
    assert Text([v]) == SerializeStr('v', e.value) + "";
  }

  /** What has been set is what is got, and nothing else changes. */
  lemma {:induction false} SetThenGet(c: Config, group: string, key: string, value: string, g: string, k: string,
                                      default: string)
    ensures GetString(SetString(c, group, key, value), g, k, default)
         == if g == group && k == key then value else GetString(c, g, k, default)
  {
    if c != [] && c[0].name != group {
      SetThenGet(c[1..], group, key, value, g, k, default);
    } else if g == group {
      SetThenGetEntry(if c == [] then [] else c[0].entries, key, value, k, default);
    }
  }

  lemma {:induction false} SetThenGetEntry(es: seq<Entry>, key: string, value: string, k: string, default: string)
    ensures GetEntry(SetEntry(es, key, value), k, default) == if k == key then value else GetEntry(es, k, default)
  {
    if es != [] && es[0].key != key {
      SetThenGetEntry(es[1..], key, value, k, default);
    }
  }

  // ---------------------------------------------------------------- the automaton

  datatype Status = WaitGroup | WaitParam | WaitValue
  datatype Outcome = Parsed(config: Config) | Failed(error: Error, position: nat)

  /** What the automaton remembers between two frames. */
  datatype Automaton = Automaton(status: Status, group: Option<string>, param: string, store: Config) {
    /** After a value, another 'p' goes on with the same group. */
    function Enter(next: char): Automaton {
      if status == WaitGroup && next == 'p' && group.Some? then this.(status := WaitParam) else this
    }

    function Kind(): char {
      match status case WaitGroup => 'g' case WaitParam => 'p' case WaitValue => 'v'
    }

    function Take(text: string): Automaton {
      match status
      case WaitGroup => this.(group := Some(text), status := WaitParam)
      case WaitParam => this.(param := text, status := WaitValue)
      case WaitValue =>
        if group.Some? then this.(store := SetString(store, group.value, param, text), status := WaitGroup)
        else this.(status := WaitGroup)
    }
  }

  const START := Automaton(WaitGroup, None, "", [])

  /** The automaton on a list of frames: the meaning of a serialized config, without any parsing. */
  function Feed(m: Automaton, fs: seq<Frame>, position: nat): Outcome
    decreases |fs|
  {
    if fs == [] then Parsed(m.store)
    else
      var m' := m.Enter(fs[0].kind);
      if fs[0].kind != m'.Kind() then Failed(WrongPrefix, position + 1)
      else Feed(m'.Take(fs[0].text), fs[1..], position + |SerializeStr(fs[0].kind, fs[0].text)|)
  }

  /** The automaton on text. */
  function Run(m: Automaton, data: string, position: nat): Outcome
    decreases |data|
  {
    var m' := m.Enter(if data == "" then '\0' else data[0]);
    match DeserializeStr(m'.Kind(), data)
    case Err(e) => Failed(e, position + 1)
    case Ok(text) =>
      match GoToEnd(data, text)
      case None => Parsed(m'.Take(text).store)
      case Some(off) => Run(m'.Take(text), data[off..], position + off)
  }

  /** mc_deserialize_config: the loop over the three states. It ends because every round goes past a frame. */
  method DeserializeConfig(input: string) returns (r: Outcome)
    ensures r == Run(START, input, 0)
  {
    hide DeserializeStr, GoToEnd, SetString;
    var group: Option<string>, param, store: Config := None, "", [];
    var position: nat, status, data, more := 0, WaitGroup, input, true;
    while more
      invariant more ==> Run(Automaton(status, group, param, store), data, position) == Run(START, input, 0)
      invariant !more ==> Run(START, input, 0) == Parsed(store)
      invariant status != WaitGroup ==> group.Some?
      decreases more, |data|
    {
      if status == WaitGroup && data != "" && data[0] == 'p' && group != None {
        status := WaitParam;
      }
      var text;
      match status {
        case WaitGroup =>
          text := DeserializeStr('g', data);
          if text.Err? {
            return Failed(text.error, position + 1);
          }
          group, status := Some(text.value), WaitParam;
        case WaitParam =>
          text := DeserializeStr('p', data);
          if text.Err? {
            return Failed(text.error, position + 1);
          }
          param, status := text.value, WaitValue;
        case WaitValue =>
          text := DeserializeStr('v', data);
          if text.Err? {
            return Failed(text.error, position + 1);
          }
          store, status := SetString(store, group.value, param, text.value), WaitGroup;
      }
      var off := GoToEnd(data, text.value);
      if off.Some? {
        data, position := data[off.value..], position + off.value;
      } else {
        more := false;
      }
    }
    return Parsed(store);
  }

  lemma RunStep(m: Automaton, f: Frame, rest: string, position: nat)
    requires Short(f.text)
    ensures var m' := m.Enter(f.kind);
            var next := position + |SerializeStr(f.kind, f.text)|;
      Run(m, SerializeStr(f.kind, f.text) + rest, position)
      == if f.kind != m'.Kind() then Failed(WrongPrefix, position + 1)
         else if rest == "" then Parsed(m'.Take(f.text).store)
         else Run(m'.Take(f.text), rest, next)
  {
    hide DeserializeStr, GoToEnd, Automaton.Take;
    var m' := m.Enter(f.kind);
    FrameStarts(f.kind, f.text, rest);
    if f.kind != m'.Kind() {
      OtherPrefix(f.kind, m'.Kind(), f.text, rest);
    } else {
      FrameRoundTrip(f.kind, f.text, rest);
    }
  }

  lemma FrameStarts(kind: char, text: string, rest: string)
    ensures var data := SerializeStr(kind, text) + rest; data != "" && data[0] == kind
  {}

  /** On the text of well-sized frames the automaton does what it does on the frames, whatever they contain. */
  lemma {:induction false} RunText(m: Automaton, fs: seq<Frame>, position: nat)
    requires fs != [] && AllShort(fs)
    ensures Run(m, Text(fs), position) == Feed(m, fs, position)
    decreases |fs|
  {
    hide SerializeStr, Run, Automaton.Take, Automaton.Enter, Short;
    var f := fs[0];
    var next := position + |SerializeStr(f.kind, f.text)|;
    RunStep(m, f, Text(fs[1..]), position);
    if fs[1..] != [] {
      FrameStarts(fs[1].kind, fs[1].text, Text(fs[1..][1..]));
      RunText(m.Enter(f.kind).Take(f.text), fs[1..], next);
    }
  }

  // ---------------------------------------------------------------- which frames make a config

  /** Frame i may stand where it stands: a group first, a key after a group, a value after a key, and after a value
      another key or another group. */
  predicate Legal(fs: seq<Frame>, i: nat)
    requires i < |fs|
  {
    var kind := fs[i].kind;
    if i == 0 then kind == 'g'
    else
      match fs[i - 1].kind
      case 'g' => kind == 'p'
      case 'p' => kind == 'v'
      case _ => kind == 'g' || kind == 'p'
  }

  /** The group that the frames before i are in. */
  function GroupAt(fs: seq<Frame>, i: nat): Option<string>
    requires i <= |fs|
  {
    if i == 0 then None else if fs[i - 1].kind == 'g' then Some(fs[i - 1].text) else GroupAt(fs, i - 1)
  }

  /** The value that the frames before i give a key of a group, the last one when there are several. */
  function LastValue(fs: seq<Frame>, i: nat, group: string, key: string, default: string): string
    requires i <= |fs|
  {
    if i < 2 then default
    else if fs[i - 1].kind == 'v' && GroupAt(fs, i) == Some(group) && fs[i - 2].text == key then fs[i - 1].text
    else LastValue(fs, i - 1, group, key, default)
  }

  /** What the automaton remembers after the first i frames. */
  ghost predicate After(m: Automaton, fs: seq<Frame>, i: nat)
    requires i <= |fs|
  {
    && m.group == GroupAt(fs, i)
    && (if i == 0 then m.status == WaitGroup
        else match fs[i - 1].kind
             case 'g' => m.status == WaitParam && m.group.Some?
             case 'p' => m.status == WaitValue && m.group.Some? && m.param == fs[i - 1].text
             case _ => fs[i - 1].kind == 'v' && m.status == WaitGroup && m.group.Some?)
    && forall g, k, d :: GetString(m.store, g, k, d) == LastValue(fs, i, g, k, d)
  }

  lemma AfterStep(m: Automaton, fs: seq<Frame>, i: nat)
    requires i < |fs| && After(m, fs, i) && Legal(fs, i)
    ensures var m' := m.Enter(fs[i].kind);
      fs[i].kind == m'.Kind() && After(m'.Take(fs[i].text), fs, i + 1)
  {
    hide GetString, SetString;
    var m' := m.Enter(fs[i].kind);
    if fs[i].kind == 'v' {
      forall g, k, d ensures GetString(m'.Take(fs[i].text).store, g, k, d) == LastValue(fs, i + 1, g, k, d) {
        SetThenGet(m.store, m.group.value, m.param, fs[i].text, g, k, d);
      }
    }
  }

  lemma NotLegal(m: Automaton, fs: seq<Frame>, i: nat)
    requires i < |fs| && After(m, fs, i) && !Legal(fs, i)
    ensures fs[i].kind != m.Enter(fs[i].kind).Kind()
  {
  }

  /** The automaton on the frames from i on, when those up to j are legal. */
  lemma {:induction false} FeedLegal(m: Automaton, fs: seq<Frame>, i: nat, j: nat) returns (end: Automaton)
    requires i <= j <= |fs| && After(m, fs, i) && forall k :: i <= k < j ==> Legal(fs, k)
    ensures After(end, fs, j)
    ensures Feed(m, fs[i..], |Text(fs[..i])|) == Feed(end, fs[j..], |Text(fs[..j])|)
    decreases j - i
  {
    hide After, Legal, Text, SerializeStr, Automaton.Take, Automaton.Enter, Automaton.Kind;
    end := m;
    if i < j {
      AfterStep(m, fs, i);
      TextNext(fs, i);
      Sequences.Behind(fs, i);
      end := FeedLegal(m.Enter(fs[i].kind).Take(fs[i].text), fs, i + 1, j);
    }
  }

  lemma TextNext(fs: seq<Frame>, i: nat)
    requires i < |fs|
    ensures |Text(fs[..i + 1])| == |Text(fs[..i])| + |SerializeStr(fs[i].kind, fs[i].text)|
  {
    assert fs[..i + 1] == fs[..i] + [fs[i]];
    TextSplit(fs[..i], [fs[i]]);
    assert Text([fs[i]]) == SerializeStr(fs[i].kind, fs[i].text) + "";
  }

  /** On the text of any frames: a config is read exactly when every frame is legal, and it has for every key the value
      given last; otherwise the error is at the first character of the first frame that is not. */
  lemma {:induction false} KindsDecide(fs: seq<Frame>, j: nat)
    requires fs != [] && AllShort(fs) && j <= |fs|
    requires (forall k :: 0 <= k < j ==> Legal(fs, k)) && (j < |fs| ==> !Legal(fs, j))
    ensures j < |fs| ==> Run(START, Text(fs), 0) == Failed(WrongPrefix, |Text(fs[..j])| + 1)
    ensures j == |fs| ==> Run(START, Text(fs), 0).Parsed?
    ensures j == |fs| ==>
      forall g, k, d :: GetString(Run(START, Text(fs), 0).config, g, k, d) == LastValue(fs, |fs|, g, k, d)
  {
    hide Run, Legal, GetString, LastValue, Text, SerializeStr, Automaton.Take, Automaton.Enter, Automaton.Kind;
    RunText(START, fs, 0);
    assert fs[0..] == fs && fs[..0] == [];
    assert Text([]) == "" by { NoText(); }
    StartAfter(fs);
    var m := FeedLegal(START, fs, 0, j);
    if j < |fs| {
      NotLegal(m, fs, j);
    }
  }

  lemma NoText()
    ensures Text([]) == ""
  {
  }

  lemma StartAfter(fs: seq<Frame>)
    ensures After(START, fs, 0)
  {
  }

  // ---------------------------------------------------------------- reading back a config

  lemma {:induction false} SetNew(c: Config, group: string, key: string, value: string)
    requires forall i :: 0 <= i < |c| ==> c[i].name != group
    ensures SetString(c, group, key, value) == c + [Group(group, [Entry(key, value)])]
  {
    if c != [] {
      SetNew(c[1..], group, key, value);
      assert c == [c[0]] + c[1..];
    }
  }

  lemma {:induction false} SetMore(c: Config, g: Group, key: string, value: string)
    requires forall i :: 0 <= i < |c| ==> c[i].name != g.name
    requires forall i :: 0 <= i < |g.entries| ==> g.entries[i].key != key
    ensures SetString(c + [g], g.name, key, value) == c + [Group(g.name, g.entries + [Entry(key, value)])]
  {
    if c == [] {
      SetEntryNew(g.entries, key, value);
      assert [g][1..] == [];
    } else {
      assert (c + [g])[1..] == c[1..] + [g];
      SetMore(c[1..], g, key, value);
      assert c == [c[0]] + c[1..];
    }
  }

  lemma {:induction false} SetEntryNew(es: seq<Entry>, key: string, value: string)
    requires forall i :: 0 <= i < |es| ==> es[i].key != key
    ensures SetEntry(es, key, value) == es + [Entry(key, value)]
  {
    if es != [] {
      SetEntryNew(es[1..], key, value);
      assert es == [es[0]] + es[1..];
    }
  }

  /** Having read the groups c and the first j entries of g. */
  ghost predicate Reading(m: Automaton, c: Config, g: Group, j: nat) {
    && j <= |g.entries| && m.group == Some(g.name)
    && m.store == (if j == 0 then c else c + [Group(g.name, g.entries[..j])])
    && (m.status == WaitGroup || (j == 0 && m.status == WaitParam))
  }

  ghost predicate NewTo(g: Group, c: Config) {
    DistinctKeys(g.entries) && forall i :: 0 <= i < |c| ==> c[i].name != g.name
  }

  lemma FeedSplit(m: Automaton, f: Frame, fs: seq<Frame>, position: nat)
    requires m.Enter(f.kind).Kind() == f.kind
    ensures Feed(m, [f] + fs, position)
         == Feed(m.Enter(f.kind).Take(f.text), fs, position + |SerializeStr(f.kind, f.text)|)
  {
    assert ([f] + fs)[1..] == fs;
  }

  /** A key and its value go into the store. */
  lemma TakeEntry(m: Automaton, c: Config, g: Group, j: nat) returns (m': Automaton)
    requires Reading(m, c, g, j) && j < |g.entries| && NewTo(g, c)
    ensures var e := g.entries[j];
      var m1 := m.Enter('p').Take(e.key);
      && m.Enter('p').Kind() == 'p' && m1.Enter('v').Kind() == 'v'
      && m' == m1.Enter('v').Take(e.value)
    ensures Reading(m', c, g, j + 1)
  {
    var e := g.entries[j];
    m' := m.Enter('p').Take(e.key).Enter('v').Take(e.value);
    assert g.entries[..j + 1] == g.entries[..j] + [e];
    if j == 0 {
      SetNew(c, g.name, e.key, e.value);
      assert g.entries[..1] == [e];
    } else {
      SetMore(c, Group(g.name, g.entries[..j]), e.key, e.value);
    }
  }

  lemma {:induction false} FeedEntry(m: Automaton, c: Config, g: Group, j: nat, rest: seq<Frame>, position: nat)
    returns (m': Automaton)
    requires Reading(m, c, g, j) && j < |g.entries| && NewTo(g, c)
    ensures Reading(m', c, g, j + 1)
    ensures Feed(m, Pair(g.entries[j]) + rest, position) == Feed(m', rest, position + |Text(Pair(g.entries[j]))|)
  {
    hide Reading, Automaton.Take, Automaton.Enter, SerializeStr, Text;
    var e := g.entries[j];
    var p, v := Frame('p', e.key), Frame('v', e.value);
    m' := TakeEntry(m, c, g, j);
    assert Pair(e) + rest == [p] + ([v] + rest);
    FeedSplit(m, p, [v] + rest, position);
    FeedSplit(m.Enter('p').Take(e.key), v, rest, position + |SerializeStr('p', e.key)|);
    PairText(e);
  }

  function Pair(e: Entry): seq<Frame> { [Frame('p', e.key), Frame('v', e.value)] }

  lemma EntryFramesNext(es: seq<Entry>, j: nat)
    requires j < |es|
    ensures EntryFrames(es[..j + 1]) == EntryFrames(es[..j]) + Pair(es[j])
  {
    assert es[..j + 1][..j] == es[..j];
  }

  /** The entries of a group are read into the store one after the other. */
  lemma {:induction false} FeedEntries(m: Automaton, c: Config, g: Group, j: nat, rest: seq<Frame>, position: nat)
    returns (m': Automaton)
    requires Reading(m, c, g, 0) && j <= |g.entries| && NewTo(g, c)
    ensures Reading(m', c, g, j) && (j == 0 ==> m' == m)
    ensures Feed(m, EntryFrames(g.entries[..j]) + rest, position)
         == Feed(m', rest, position + |Text(EntryFrames(g.entries[..j]))|)
    decreases j
  {
    hide Feed, Reading, NewTo, Pair, SerializeStr;
    if j == 0 {
      m' := m;
      assert EntryFrames(g.entries[..0]) + rest == rest;
    } else {
      var e := g.entries[j - 1];
      var before := EntryFrames(g.entries[..j - 1]);
      EntryFramesNext(g.entries, j - 1);
      assert before + Pair(e) + rest == before + (Pair(e) + rest);
      m' := FeedEntries(m, c, g, j - 1, Pair(e) + rest, position);
      m' := FeedEntry(m', c, g, j - 1, rest, position + |Text(before)|);
      TextSplit(before, Pair(e));
    }
  }

  lemma PairText(e: Entry)
    ensures |Text(Pair(e))| == |SerializeStr('p', e.key)| + |SerializeStr('v', e.value)|
  {
    var p, v := Frame('p', e.key), Frame('v', e.value);
    assert [p, v][1..] == [v] && [v][1..] == [];
    assert Text([p, v]) == SerializeStr('p', e.key) + Text([v]);
    assert Text([v]) == SerializeStr('v', e.value) + "";
  }

  /** Between two groups: the groups c have been read. */
  ghost predicate ReadSoFar(m: Automaton, c: Config) {
    m.status == WaitGroup && m.store == c
  }

  lemma {:induction false} FeedGroup(m: Automaton, c: Config, g: Group, rest: seq<Frame>, position: nat)
    returns (m': Automaton)
    requires ReadSoFar(m, c) && NewTo(g, c)
    ensures g.entries != [] ==> ReadSoFar(m', c + [g])
    ensures g.entries == [] ==> m'.status == WaitParam && m'.store == c
    ensures Feed(m, GroupFrames(g) + rest, position) == Feed(m', rest, position + |Text(GroupFrames(g))|)
  {
    hide Feed, SerializeStr, EntryFrames, Reading, NewTo;
    var head, es := Frame('g', g.name), EntryFrames(g.entries);
    assert GroupFrames(g) == [head] + es;
    Sequences.Assoc([head], es, rest);
    FeedSplit(m, head, es + rest, position);
    TextSplit([head], es);
    HeadText(g.name);
    Sequences.Whole(g.entries);
    StartReading(m.Take(g.name), c, g);
    m' := FeedEntries(m.Take(g.name), c, g, |g.entries|, rest, position + |SerializeStr('g', g.name)|);
    AllRead(m', c, g);
  }

  lemma HeadText(name: string)
    ensures Text([Frame('g', name)]) == SerializeStr('g', name)
  {
    hide SerializeStr;
    var head := Frame('g', name);
    assert [head][1..] == [];
    assert Text([head]) == SerializeStr('g', name) + "";
  }

  lemma StartReading(m: Automaton, c: Config, g: Group)
    requires m.status == WaitParam && m.group == Some(g.name) && m.store == c
    ensures Reading(m, c, g, 0)
  {}

  lemma AllRead(m: Automaton, c: Config, g: Group)
    requires Reading(m, c, g, |g.entries|)
    ensures g.entries != [] ==> ReadSoFar(m, c + [g])
    ensures g.entries == [] ==> m.store == c
  {
    assert g.entries[..|g.entries|] == g.entries;
  }

  ghost predicate AllFull(c: Config) { forall i :: 0 <= i < |c| ==> c[i].entries != [] }

  lemma GroupBefore(c: Config, i: nat)
    requires WellFormed(c) && i < |c|
    ensures ConfigFrames(c[..i + 1]) == ConfigFrames(c[..i]) + GroupFrames(c[i])
    ensures NewTo(c[i], c[..i])
    ensures AllFull(c[..i + 1]) ==> AllFull(c[..i]) && c[i].entries != []
  {
    assert c[..i + 1][..i] == c[..i] && c[..i + 1][i] == c[i];
    assert forall k :: 0 <= k < i ==> c[..i][k] == c[..i + 1][k];
  }

  /** The groups before i are read back as they were. */
  lemma {:induction false} FeedGroups(c: Config, i: nat, rest: seq<Frame>) returns (m: Automaton)
    requires WellFormed(c) && i <= |c| && AllFull(c[..i])
    ensures ReadSoFar(m, c[..i])
    ensures Feed(START, ConfigFrames(c[..i]) + rest, 0) == Feed(m, rest, |Text(ConfigFrames(c[..i]))|)
    decreases i
  {
    hide Feed, NewTo, SerializeStr, WellFormed, AllFull, GroupFrames;
    if i == 0 {
      m := START;
      assert ConfigFrames(c[..0]) + rest == rest;
    } else {
      var g, before := c[i - 1], ConfigFrames(c[..i - 1]);
      GroupBefore(c, i - 1);
      assert before + GroupFrames(g) + rest == before + (GroupFrames(g) + rest);
      m := FeedGroups(c, i - 1, GroupFrames(g) + rest);
      m := FeedGroup(m, c[..i - 1], g, rest, |Text(before)|);
      TextSplit(before, GroupFrames(g));
      assert c[..i - 1] + [g] == c[..i];
    }
  }

  /** What comes of the frames of a config whose first group without keys is group i. */
  lemma {:induction false} FeedEmptyGroup(c: Config, i: nat)
    requires WellFormed(c) && i < |c| && AllFull(c[..i]) && c[i].entries == []
    ensures Feed(START, ConfigFrames(c), 0)
         == if i == |c| - 1 then Parsed(c[..i]) else Failed(WrongPrefix, |Text(ConfigFrames(c[..i + 1]))| + 1)
  {
    hide Feed, WellFormed, AllFull, NewTo, GroupFrames;
    var tail := FramesFrom(c, i + 1);
    var before := ConfigFrames(c[..i]);
    GroupBefore(c, i);
    Sequences.Assoc(before, GroupFrames(c[i]), tail);
    var m := FeedGroups(c, i, GroupFrames(c[i]) + tail);
    m := FeedGroup(m, c[..i], c[i], tail, |Text(before)|);
    TextSplit(before, GroupFrames(c[i]));
    FeedStuck(m, tail, |Text(ConfigFrames(c[..i + 1]))|);
  }

  /** The automaton waits for a key: it ends with the text, and stops at a group. */
  lemma FeedStuck(m: Automaton, tail: seq<Frame>, position: nat)
    requires m.status == WaitParam
    ensures tail == [] ==> Feed(m, tail, position) == Parsed(m.store)
    ensures tail != [] && tail[0].kind == 'g' ==> Feed(m, tail, position) == Failed(WrongPrefix, position + 1)
  {}

  /** The frames of the groups from i on. */
  lemma {:induction false} FramesFrom(c: Config, i: nat) returns (tail: seq<Frame>)
    requires i <= |c|
    ensures ConfigFrames(c) == ConfigFrames(c[..i]) + tail
    ensures if i == |c| then tail == [] else tail != [] && tail[0] == Frame('g', c[i].name)
    decreases |c| - i
  {
    if i == |c| {
      tail := [];
      assert c[..i] == c;
    } else {
      var more := FramesFrom(c, i + 1);
      assert c[..i + 1][..i] == c[..i];
      tail := GroupFrames(c[i]) + more;
    }
  }

  /** What mc_deserialize_config makes of what mc_serialize_config writes. */
  function ReadBack(c: Config): Outcome {
    Run(START, Text(ConfigFrames(c)), 0)
  }

  /** The round trip gives back the same groups, keys and values, in order and whatever their texts, exactly when
      the config is not empty and each of its groups has a key. */
  lemma {:induction false} ConfigRoundTrip(c: Config)
    requires WellFormed(c) && AllShort(ConfigFrames(c))
    ensures ReadBack(c) == Parsed(c) <==> c != [] && AllFull(c)
    ensures c == [] ==> ReadBack(c) == Failed(Empty, 1)
  {
    if c != [] {
      assert ConfigFrames(c) != [];
      RunText(START, ConfigFrames(c), 0);
      if AllFull(c) {
        assert c[..|c|] == c && ConfigFrames(c) + [] == ConfigFrames(c);
        var m := FeedGroups(c, |c|, []);
      } else {
        var i := FirstEmpty(c);
        FeedEmptyGroup(c, i);
      }
    }
  }

  /** A config that has a group without keys is not read back: if the first such group is the last group, it is
      lost silently; otherwise the reader stops at the group after it. */
  lemma {:induction false} EmptyGroupLost(c: Config, i: nat)
    requires WellFormed(c) && AllShort(ConfigFrames(c))
    requires i < |c| && AllFull(c[..i]) && c[i].entries == []
    ensures ReadBack(c)
         == if i == |c| - 1 then Parsed(c[..i]) else Failed(WrongPrefix, |Text(ConfigFrames(c[..i + 1]))| + 1)
  {
    assert ConfigFrames(c) != [];
    RunText(START, ConfigFrames(c), 0);
    FeedEmptyGroup(c, i);
  }

  lemma FirstEmpty(c: Config) returns (i: nat)
    requires !AllFull(c)
    ensures i < |c| && c[i].entries == [] && AllFull(c[..i])
  {
    i := 0;
    while c[i].entries != []
      invariant i < |c| && !AllFull(c) && forall k :: 0 <= k < i ==> c[k].entries != []
      decreases |c| - i
    {
      i := i + 1;
    }
    assert forall k :: 0 <= k < i ==> c[..i][k] == c[k];
  }

  lemma FrameExamples()
    ensures SerializeStr('g', "a") == "g1:a" && SerializeStr('p', "k") == "p1:k" && SerializeStr('v', "vv") == "v2:vv"
  {
    assert Dec(1) == "1" && Dec(2) == "2";
  }

  /** The text of a small config. */
  lemma ConfigExample()
    ensures Text(ConfigFrames([Group("a", [Entry("k", "vv")])])) == "g1:ap1:kv2:vv"
  {
    hide SerializeStr;
    var es := [Entry("k", "vv")];
    var c := [Group("a", es)];
    assert es[..0] == [] && c[..0] == [];
    assert ConfigFrames(c) == [Frame('g', "a"), Frame('p', "k"), Frame('v', "vv")];
    var fs := [Frame('g', "a"), Frame('p', "k"), Frame('v', "vv")];
    assert fs[1..] == [Frame('p', "k"), Frame('v', "vv")];
    assert fs[1..][1..] == [Frame('v', "vv")] && fs[1..][1..][1..] == [];
    assert Text(fs) == SerializeStr('g', "a") + (SerializeStr('p', "k") + (SerializeStr('v', "vv") + ""));
    FrameExamples();
  }
}
