/** Tab lists on the wire: one encoder, a strict decoder and the desktop client's lenient one. */
module TabList {
  import opened Bytes

  /** Strings are their UTF-8 bytes. */
  datatype TabInfo = TabInfo(
    id: u32, name: seq<byte>, title: seq<byte>, pwd: seq<byte>, active: bool, childExited: bool)

  /** Whether bytes are valid UTF-8. */
  type Utf8 = seq<byte> -> bool

  const STRING_LIMIT: nat := 0xFFFF
  const MIN_TAB_LEN: nat := 11

  // ---- encoding ----

  /** Longer strings are cut, wherever that falls. */
  function Clip(text: seq<byte>): (r: seq<byte>)
    ensures |r| <= STRING_LIMIT
    ensures r == text <==> |text| <= STRING_LIMIT
  {
    text[..Min(|text|, STRING_LIMIT)]
  }

  function EncodeString(text: seq<byte>): seq<byte> {
    LE(|Clip(text)|, 2) + Clip(text)
  }

  function Flags(tab: TabInfo): byte {
    (if tab.active then 1 else 0) + (if tab.childExited then 2 else 0)
  }

  function EncodeTab(tab: TabInfo): (s: seq<byte>)
    ensures |s| >= MIN_TAB_LEN
  {
    LE(tab.id, 4) + EncodeString(tab.name) + EncodeString(tab.title) + EncodeString(tab.pwd) + [Flags(tab)]
  }

  function EncodeTabs(tabs: seq<TabInfo>): seq<byte> {
    if tabs == [] then [] else EncodeTab(tabs[0]) + EncodeTabs(tabs[1..])
  }

  /** The count is cast to 32 bits. */
  function Encode(tabs: seq<TabInfo>): seq<byte> {
    LE(|tabs| % U32_LIMIT, 4) + EncodeTabs(tabs)
  }

  lemma {:induction false} EncodeTabsAppend(tabs: seq<TabInfo>, tab: TabInfo)
    ensures EncodeTabs(tabs + [tab]) == EncodeTabs(tabs) + EncodeTab(tab)
  {
    hide EncodeTab;
    if tabs == [] {
      assert tabs + [tab] == [tab];
      assert EncodeTabs([tab]) == EncodeTab(tab) + EncodeTabs([]);
    } else {
      assert (tabs + [tab])[1..] == tabs[1..] + [tab];
      EncodeTabsAppend(tabs[1..], tab);
    }
  }

  method EncodeTabList(tabs: seq<TabInfo>) returns (payload: seq<byte>)
    ensures payload == Encode(tabs)
  {
    hide EncodeTab, LE;
    payload := LE(|tabs| % U32_LIMIT, 4);
    for i := 0 to |tabs|
      invariant payload == LE(|tabs| % U32_LIMIT, 4) + EncodeTabs(tabs[..i])
    {
      var tab := tabs[i];
      assert tabs[..i + 1] == tabs[..i] + [tab];
      EncodeTabsAppend(tabs[..i], tab);
      assert payload + EncodeTab(tab) == LE(|tabs| % U32_LIMIT, 4) + EncodeTabs(tabs[..i + 1]);
      payload := PushTab(payload, tab);
    }
    assert tabs[..|tabs|] == tabs;
  }

  method PushTab(payload: seq<byte>, tab: TabInfo) returns (r: seq<byte>)
    ensures r == payload + EncodeTab(tab)
  {
    hide EncodeString, LE;
    r := payload + LE(tab.id, 4);
    r := r + EncodeString(tab.name);
    r := r + EncodeString(tab.title);
    r := r + EncodeString(tab.pwd);
    r := r + [Flags(tab)];
  }

  // ---- decoding ----

  datatype Error = TooShort | Truncated | InvalidUtf8 | TrailingBytes

  datatype Result<+T> = Ok(value: T) | Err(error: Error)
  {
    function ToOption(): Option<T> {
      if Ok? then Some(value) else None
    }
  }

  /** A value and the bytes after it. */
  type Parsed<T> = Result<(T, seq<byte>)>

  function ParseU32(s: seq<byte>): Parsed<u32> {
    if |s| < 4 then Err(Truncated) else Ok((U32At(s, 0), s[4..]))
  }

  function ParseString(s: seq<byte>, utf8: Utf8): Parsed<seq<byte>> {
    if |s| < 2 then Err(Truncated)
    else
      var n := U16At(s, 0);
      if |s| < 2 + n then Err(Truncated)
      else if !utf8(s[2..2 + n]) then Err(InvalidUtf8)
      else Ok((s[2..2 + n], s[2 + n..]))
  }

  function ParseTab(s: seq<byte>, utf8: Utf8): Parsed<TabInfo> {
    var id := ParseU32(s);
    if id.Err? then Err(id.error)
    else
      var name := ParseString(id.value.1, utf8);
      if name.Err? then Err(name.error)
      else
        var title := ParseString(name.value.1, utf8);
        if title.Err? then Err(title.error)
        else
          var pwd := ParseString(title.value.1, utf8);
          if pwd.Err? then Err(pwd.error)
          else if pwd.value.1 == [] then Err(Truncated)
          else
            var flags := pwd.value.1[0];
            Ok((TabInfo(id.value.0, name.value.0, title.value.0, pwd.value.0, flags % 2 == 1, (flags / 2) % 2 == 1),
                pwd.value.1[1..]))
  }

  function Prepend(tabs: seq<TabInfo>, rest: Parsed<seq<TabInfo>>): Parsed<seq<TabInfo>> {
    if rest.Err? then rest else Ok((tabs + rest.value.0, rest.value.1))
  }

  function ParseTabs(s: seq<byte>, n: nat, utf8: Utf8): Parsed<seq<TabInfo>>
    decreases n
  {
    if n == 0 then Ok(([], s))
    else
      var first := ParseTab(s, utf8);
      if first.Err? then Err(first.error) else Prepend([first.value.0], ParseTabs(first.value.1, n - 1, utf8))
  }

  /** `decode_tab_list_payload`: nothing may follow the tabs. */
  function Strict(payload: seq<byte>, utf8: Utf8): Result<seq<TabInfo>> {
    if |payload| < 4 then Err(TooShort)
    else
      var tabs := ParseTabs(payload[4..], U32At(payload, 0), utf8);
      if tabs.Err? then Err(tabs.error)
      else if tabs.value.1 != [] then Err(TrailingBytes)
      else Ok(tabs.value.0)
  }

  /** `decode_remote_tab_list`: whatever follows the tabs is ignored. */
  function Lenient(payload: seq<byte>, utf8: Utf8): Option<seq<TabInfo>> {
    if |payload| < 4 then None
    else
      var tabs := ParseTabs(payload[4..], U32At(payload, 0), utf8);
      if tabs.Err? then None else Some(tabs.value.0)
  }

  // ---- the decoders' loops over an offset ----

  /** A reading position after some bytes of `payload`. */
  predicate At(payload: seq<byte>, offset: nat, rest: seq<byte>) {
    offset <= |payload| && payload[offset..] == rest
  }

  method ReadU32(payload: seq<byte>, offset: nat) returns (value: Result<u32>, end: nat)
    requires offset <= |payload|
    ensures var parsed := ParseU32(payload[offset..]);
            if parsed.Ok? then value == Ok(parsed.value.0) && At(payload, end, parsed.value.1)
            else value == Err(parsed.error)
  {
    if |payload| < offset + 4 {
      return Err(Truncated), offset;
    }
    assert payload[offset..][0..4] == payload[offset..offset + 4];
    return Ok(U32At(payload, offset)), offset + 4;
  }

  method ReadString(payload: seq<byte>, offset: nat, utf8: Utf8) returns (value: Result<seq<byte>>, end: nat)
    requires offset <= |payload|
    ensures var parsed := ParseString(payload[offset..], utf8);
            if parsed.Ok? then value == Ok(parsed.value.0) && At(payload, end, parsed.value.1)
            else value == Err(parsed.error)
  {
    end := offset;
    if |payload| < end + 2 {
      return Err(Truncated), end;
    }
    assert payload[offset..][0..2] == payload[offset..offset + 2];
    var n := U16At(payload, end);
    end := end + 2;
    if |payload| < end + n {
      return Err(Truncated), end;
    }
    assert payload[offset..][2..2 + n] == payload[end..end + n];
    if !utf8(payload[end..end + n]) {
      return Err(InvalidUtf8), end;
    }
    return Ok(payload[end..end + n]), end + n;
  }

  method ReadTab(payload: seq<byte>, offset: nat, utf8: Utf8) returns (value: Result<TabInfo>, end: nat)
    requires offset <= |payload|
    ensures var parsed := ParseTab(payload[offset..], utf8);
            if parsed.Ok? then value == Ok(parsed.value.0) && At(payload, end, parsed.value.1)
            else value == Err(parsed.error)
  {
    hide ParseString, ParseU32;
    var id, name, title, pwd;
    id, end := ReadU32(payload, offset);
    if id.Err? {
      return Err(id.error), end;
    }
    name, end := ReadString(payload, end, utf8);
    if name.Err? {
      return Err(name.error), end;
    }
    title, end := ReadString(payload, end, utf8);
    if title.Err? {
      return Err(title.error), end;
    }
    pwd, end := ReadString(payload, end, utf8);
    if pwd.Err? {
      return Err(pwd.error), end;
    }
    if end >= |payload| {
      return Err(Truncated), end;
    }
    var flags := payload[end];
    value := Ok(TabInfo(id.value, name.value, title.value, pwd.value, flags % 2 == 1, (flags / 2) % 2 == 1));
    end := end + 1;
  }

  lemma PrependStep(tabs: seq<TabInfo>, tab: TabInfo, rest: Parsed<seq<TabInfo>>)
    ensures Prepend(tabs, Prepend([tab], rest)) == Prepend(tabs + [tab], rest)
  {
    if rest.Ok? {
      Assoc(tabs, [tab], rest.value.0);
    }
  }

  lemma PrependNone(rest: Parsed<seq<TabInfo>>)
    ensures Prepend([], rest) == rest
  {
    if rest.Ok? {
      assert [] + rest.value.0 == rest.value.0;
    }
  }

  /** The loop of both decoders: `count` tabs from byte 4 on, stopping at the first that fails. */
  method ReadTabs(payload: seq<byte>, count: nat, utf8: Utf8) returns (tabs: Result<seq<TabInfo>>, offset: nat)
    requires |payload| >= 4
    ensures var parsed := ParseTabs(payload[4..], count, utf8);
            if parsed.Ok? then tabs == Ok(parsed.value.0) && At(payload, offset, parsed.value.1)
            else tabs == Err(parsed.error)
  {
    hide ParseTab, Prepend;
    var read := [];
    offset := 4;
    ghost var whole := ParseTabs(payload[4..], count, utf8);
    PrependNone(whole);
    for i := 0 to count
      invariant offset <= |payload|
      invariant whole == Prepend(read, ParseTabs(payload[offset..], count - i, utf8))
    {
      var tab, end := ReadTab(payload, offset, utf8);
      if tab.Err? {
        assert whole == Err(tab.error) by { PrependError(read, tab.error); }
        return Err(tab.error), offset;
      }
      PrependStep(read, tab.value, ParseTabs(payload[end..], count - i - 1, utf8));
      read := read + [tab.value];
      offset := end;
    }
    assert whole == Ok((read, payload[offset..])) by { PrependNothing(read, payload[offset..]); }
    tabs := Ok(read);
  }

  lemma PrependError(read: seq<TabInfo>, error: Error)
    ensures Prepend(read, Err(error)) == Err(error)
  {
  }

  lemma PrependNothing(read: seq<TabInfo>, rest: seq<byte>)
    ensures Prepend(read, Ok(([], rest))) == Ok((read, rest))
  {
    assert read + [] == read;
  }

  method DecodeTabListPayload(payload: seq<byte>, utf8: Utf8) returns (r: Result<seq<TabInfo>>)
    ensures r == Strict(payload, utf8)
  {
    if |payload| < 4 {
      return Err(TooShort);
    }
    var tabs, offset := ReadTabs(payload, U32At(payload, 0), utf8);
    if tabs.Err? {
      return tabs;
    }
    if offset != |payload| {
      return Err(TrailingBytes);
    }
    return tabs;
  }

  method DecodeRemoteTabList(payload: seq<byte>, utf8: Utf8) returns (r: Option<seq<TabInfo>>)
    ensures r == Lenient(payload, utf8)
  {
    if |payload| < 4 {
      return None;
    }
    var tabs, _ := ReadTabs(payload, U32At(payload, 0), utf8);
    return tabs.ToOption();
  }

  // ---- bytes after a parsed value do not matter ----

  lemma ParseU32Extends(s: seq<byte>, x: seq<byte>)
    requires ParseU32(s).Ok?
    ensures ParseU32(s + x) == Ok((ParseU32(s).value.0, ParseU32(s).value.1 + x))
    ensures s == s[..4] + ParseU32(s).value.1
  {
    assert (s + x)[0..4] == s[0..4];
    assert (s + x)[4..] == s[4..] + x;
  }

  lemma ParseStringExtends(s: seq<byte>, x: seq<byte>, utf8: Utf8)
    requires ParseString(s, utf8).Ok?
    ensures ParseString(s + x, utf8) == Ok((ParseString(s, utf8).value.0, ParseString(s, utf8).value.1 + x))
  {
    assert (s + x)[0..2] == s[0..2];
    var n := U16At(s, 0);
    assert (s + x)[2..2 + n] == s[2..2 + n];
    assert (s + x)[2 + n..] == s[2 + n..] + x;
  }

  lemma ParseTabExtends(s: seq<byte>, x: seq<byte>, utf8: Utf8)
    requires ParseTab(s, utf8).Ok?
    ensures ParseTab(s + x, utf8) == Ok((ParseTab(s, utf8).value.0, ParseTab(s, utf8).value.1 + x))
  {
    hide ParseString, ParseU32;
    var id := ParseU32(s).value.1;
    var name := ParseString(id, utf8).value.1;
    var title := ParseString(name, utf8).value.1;
    var pwd := ParseString(title, utf8).value.1;
    ParseU32Extends(s, x);
    ParseStringExtends(id, x, utf8);
    ParseStringExtends(name, x, utf8);
    ParseStringExtends(title, x, utf8);
    assert (pwd + x)[1..] == pwd[1..] + x;
  }

  lemma {:induction false} ParseTabsExtends(s: seq<byte>, x: seq<byte>, n: nat, utf8: Utf8)
    requires ParseTabs(s, n, utf8).Ok?
    ensures ParseTabs(s + x, n, utf8) == Ok((ParseTabs(s, n, utf8).value.0, ParseTabs(s, n, utf8).value.1 + x))
    decreases n
  {
    hide ParseTab;
    if n == 0 {
    } else {
      ParseTabExtends(s, x, utf8);
      ParseTabsExtends(ParseTab(s, utf8).value.1, x, n - 1, utf8);
    }
  }

  /** What was consumed: `s` without the `rest` at its end. */
  function Consumed(s: seq<byte>, rest: seq<byte>): seq<byte> {
    if |rest| <= |s| then s[..|s| - |rest|] else []
  }

  predicate IsTail(s: seq<byte>, rest: seq<byte>) {
    |rest| <= |s| && s[|s| - |rest|..] == rest
  }

  lemma ParseU32Consumes(s: seq<byte>, rest: seq<byte>)
    requires IsTail(s, rest) && ParseU32(s).Ok? && IsTail(ParseU32(s).value.1, rest)
    ensures ParseU32(Consumed(s, rest)) == Ok((ParseU32(s).value.0, Consumed(ParseU32(s).value.1, rest)))
  {
    assert Consumed(s, rest)[0..4] == s[0..4];
    assert Consumed(s, rest)[4..] == Consumed(s[4..], rest);
  }

  lemma ParseStringConsumes(s: seq<byte>, rest: seq<byte>, utf8: Utf8)
    requires IsTail(s, rest) && ParseString(s, utf8).Ok? && IsTail(ParseString(s, utf8).value.1, rest)
    ensures ParseString(Consumed(s, rest), utf8)
            == Ok((ParseString(s, utf8).value.0, Consumed(ParseString(s, utf8).value.1, rest)))
  {
    var n := U16At(s, 0);
    assert Consumed(s, rest)[0..2] == s[0..2];
    assert Consumed(s, rest)[2..2 + n] == s[2..2 + n];
    assert Consumed(s, rest)[2 + n..] == Consumed(s[2 + n..], rest);
  }

  lemma TailOfTail(s: seq<byte>, mid: seq<byte>, rest: seq<byte>)
    requires IsTail(s, mid) && IsTail(mid, rest)
    ensures IsTail(s, rest)
  {
  }

  lemma ParseStringTail(s: seq<byte>, utf8: Utf8)
    requires ParseString(s, utf8).Ok?
    ensures IsTail(s, ParseString(s, utf8).value.1)
  {
  }

  lemma ParseTabTail(s: seq<byte>, utf8: Utf8)
    requires ParseTab(s, utf8).Ok?
    ensures IsTail(s, ParseTab(s, utf8).value.1)
  {
    hide ParseString, IsTail;
    var id := ParseU32(s).value.1;
    var name := ParseString(id, utf8).value.1;
    var title := ParseString(name, utf8).value.1;
    var pwd := ParseString(title, utf8).value.1;
    assert IsTail(s, id) && IsTail(pwd, pwd[1..]) by { SliceTail(s, 4); SliceTail(pwd, 1); }
    ParseStringTail(id, utf8);
    ParseStringTail(name, utf8);
    ParseStringTail(title, utf8);
    TailOfTail(s, id, name);
    TailOfTail(s, name, title);
    TailOfTail(s, title, pwd);
    TailOfTail(s, pwd, pwd[1..]);
  }

  lemma SliceTail(s: seq<byte>, n: nat)
    requires n <= |s|
    ensures IsTail(s, s[n..])
  {
  }

  lemma ParseTabConsumes(s: seq<byte>, rest: seq<byte>, utf8: Utf8)
    requires ParseTab(s, utf8).Ok? && IsTail(ParseTab(s, utf8).value.1, rest)
    ensures IsTail(s, rest)
    ensures ParseTab(Consumed(s, rest), utf8)
            == Ok((ParseTab(s, utf8).value.0, Consumed(ParseTab(s, utf8).value.1, rest)))
  {
    hide ParseString, ParseU32, IsTail;
    var id := ParseU32(s).value.1;
    var name := ParseString(id, utf8).value.1;
    var title := ParseString(name, utf8).value.1;
    var pwd := ParseString(title, utf8).value.1;
    SliceTail(pwd, 1);
    TailOfTail(pwd, pwd[1..], rest);
    ParseStringTail(title, utf8);
    TailOfTail(title, pwd, rest);
    ParseStringTail(name, utf8);
    TailOfTail(name, title, rest);
    ParseStringTail(id, utf8);
    TailOfTail(id, name, rest);
    ParseTabTail(s, utf8);
    TailOfTail(s, pwd[1..], rest);
    ParseU32Consumes(s, rest);
    ParseStringConsumes(id, rest, utf8);
    ParseStringConsumes(name, rest, utf8);
    ParseStringConsumes(title, rest, utf8);
    FlagConsumes(pwd, rest);
  }

  lemma FlagConsumes(pwd: seq<byte>, rest: seq<byte>)
    requires pwd != [] && IsTail(pwd[1..], rest)
    ensures Consumed(pwd, rest) != [] && Consumed(pwd, rest)[0] == pwd[0]
    ensures Consumed(pwd, rest)[1..] == Consumed(pwd[1..], rest)
  {
  }

  lemma {:induction false} ParseTabsConsumes(s: seq<byte>, n: nat, utf8: Utf8)
    requires ParseTabs(s, n, utf8).Ok?
    ensures IsTail(s, ParseTabs(s, n, utf8).value.1)
    ensures ParseTabs(Consumed(s, ParseTabs(s, n, utf8).value.1), n, utf8) == Ok((ParseTabs(s, n, utf8).value.0, []))
    decreases n
  {
    hide ParseTab;
    if n == 0 {
    } else {
      var next := ParseTab(s, utf8).value.1;
      ParseTabsConsumes(next, n - 1, utf8);
      ParseTabConsumes(s, ParseTabs(s, n, utf8).value.1, utf8);
    }
  }

  // ---- strict and lenient ----

  lemma CountOfPrefix(payload: seq<byte>, k: nat)
    requires 4 <= k <= |payload|
    ensures U32At(payload[..k], 0) == U32At(payload, 0)
    ensures payload[..k][4..] + payload[k..] == payload[4..]
  {
    assert payload[..k][0..4] == payload[0..4];
  }

  /** Only one prefix of a payload is accepted by the strict decoder, and the lenient one gives
      what that prefix means. */
  lemma StrictPrefix(payload: seq<byte>, k: nat, utf8: Utf8)
    requires k <= |payload| && Strict(payload[..k], utf8).Ok?
    ensures Lenient(payload, utf8) == Some(Strict(payload[..k], utf8).value)
    ensures k >= 4 && ParseTabs(payload[4..], U32At(payload, 0), utf8)
                      == Ok((Strict(payload[..k], utf8).value, payload[k..]))
  {
    hide ParseTabs;
    CountOfPrefix(payload, k);
    ParseTabsExtends(payload[..k][4..], payload[k..], U32At(payload, 0), utf8);
    assert [] + payload[k..] == payload[k..];
  }

  /** On any bytes, the lenient decoder returns `tabs` exactly when the strict one accepts some
      prefix with that result. */
  lemma LenientExactly(payload: seq<byte>, utf8: Utf8, tabs: seq<TabInfo>)
    ensures Lenient(payload, utf8) == Some(tabs) <==>
            exists k :: 0 <= k <= |payload| && Strict(payload[..k], utf8) == Ok(tabs)
  {
    hide ParseTabs;
    if Lenient(payload, utf8) == Some(tabs) {
      var n := U32At(payload, 0);
      var rest := ParseTabs(payload[4..], n, utf8).value.1;
      ParseTabsConsumes(payload[4..], n, utf8);
      var k := |payload| - |rest|;
      CountOfPrefix(payload, k);
      assert payload[..k][4..] == Consumed(payload[4..], rest);
      assert Strict(payload[..k], utf8) == Ok(tabs);
    }
    if k :| 0 <= k <= |payload| && Strict(payload[..k], utf8) == Ok(tabs) {
      StrictPrefix(payload, k, utf8);
    }
  }

  lemma StrictPrefixUnique(payload: seq<byte>, k: nat, k': nat, utf8: Utf8)
    requires k <= |payload| && k' <= |payload|
    requires Strict(payload[..k], utf8).Ok? && Strict(payload[..k'], utf8).Ok?
    ensures k == k'
  {
    StrictPrefix(payload, k, utf8);
    StrictPrefix(payload, k', utf8);
    assert |payload[k..]| == |payload[k'..]|;
  }

  // ---- round trips ----

  function ClipTab(tab: TabInfo): TabInfo {
    tab.(name := Clip(tab.name), title := Clip(tab.title), pwd := Clip(tab.pwd))
  }

  predicate ReadableTab(tab: TabInfo, utf8: Utf8) {
    utf8(Clip(tab.name)) && utf8(Clip(tab.title)) && utf8(Clip(tab.pwd))
  }

  predicate Fits(tab: TabInfo) {
    |tab.name| <= 65535 && |tab.title| <= 65535 && |tab.pwd| <= 65535
  }

  lemma StringRoundTrip(text: seq<byte>, tail: seq<byte>, utf8: Utf8)
    ensures ParseString(EncodeString(text) + tail, utf8)
            == if utf8(Clip(text)) then Ok((Clip(text), tail)) else Err(InvalidUtf8)
  {
    hide LE, Clip, U16At;
    var s := EncodeString(text) + tail;
    var n := |Clip(text)|;
    assert s[0..2] == LE(n, 2);
    U16RoundTrip(s, 0, n);
    assert s[2..2 + n] == Clip(text) && s[2 + n..] == tail;
  }

  lemma TabRoundTrip(tab: TabInfo, tail: seq<byte>, utf8: Utf8)
    ensures ParseTab(EncodeTab(tab) + tail, utf8)
            == if ReadableTab(tab, utf8) then Ok((ClipTab(tab), tail)) else Err(InvalidUtf8)
  {
    hide LE, Clip, U32At, EncodeString, ParseString;
    var afterPwd := [Flags(tab)] + tail;
    var afterTitle := EncodeString(tab.pwd) + afterPwd;
    var afterName := EncodeString(tab.title) + afterTitle;
    var afterId := EncodeString(tab.name) + afterName;
    var s := EncodeTab(tab) + tail;
    assert s == LE(tab.id, 4) + afterId;
    assert s[0..4] == LE(tab.id, 4) && s[4..] == afterId;
    U32RoundTrip(s, 0, tab.id);
    StringRoundTrip(tab.name, afterName, utf8);
    StringRoundTrip(tab.title, afterTitle, utf8);
    StringRoundTrip(tab.pwd, afterPwd, utf8);
    assert afterPwd[1..] == tail;
  }

  function ClipTabs(tabs: seq<TabInfo>): (r: seq<TabInfo>)
    ensures |r| == |tabs|
  {
    seq(|tabs|, i requires 0 <= i < |tabs| => ClipTab(tabs[i]))
  }

  lemma {:induction false} TabsRoundTrip(tabs: seq<TabInfo>, tail: seq<byte>, utf8: Utf8)
    ensures ParseTabs(EncodeTabs(tabs) + tail, |tabs|, utf8)
            == if forall i :: 0 <= i < |tabs| ==> ReadableTab(tabs[i], utf8) then Ok((ClipTabs(tabs), tail))
               else Err(InvalidUtf8)
  {
    hide ParseTab, EncodeTab, ReadableTab, ClipTab;
    if tabs == [] {
      assert EncodeTabs(tabs) + tail == tail;
    } else {
      var after := EncodeTabs(tabs[1..]) + tail;
      Assoc(EncodeTab(tabs[0]), EncodeTabs(tabs[1..]), tail);
      TabRoundTrip(tabs[0], after, utf8);
      TabsRoundTrip(tabs[1..], tail, utf8);
      assert (forall i :: 0 <= i < |tabs| ==> ReadableTab(tabs[i], utf8)) <==>
             ReadableTab(tabs[0], utf8) && forall i :: 0 <= i < |tabs[1..]| ==> ReadableTab(tabs[1..][i], utf8) by {
        if ReadableTab(tabs[0], utf8) && forall i :: 0 <= i < |tabs[1..]| ==> ReadableTab(tabs[1..][i], utf8) {
          forall i | 0 < i < |tabs| ensures ReadableTab(tabs[i], utf8) {
            assert tabs[i] == tabs[1..][i - 1];
          }
        }
      }
      assert ClipTabs(tabs) == [ClipTab(tabs[0])] + ClipTabs(tabs[1..]);
    }
  }

  lemma EncodedLength(tabs: seq<TabInfo>)
    ensures |Encode(tabs)| >= 4
  {
  }

  lemma EncodedCount(tabs: seq<TabInfo>)
    ensures U32At(Encode(tabs), 0) == |tabs| % U32_LIMIT && Encode(tabs)[4..] == EncodeTabs(tabs)
  {
    hide LE, U32At;
    assert Encode(tabs)[0..4] == LE(|tabs| % U32_LIMIT, 4);
    U32RoundTrip(Encode(tabs), 0, |tabs| % U32_LIMIT);
  }

  /** What the encoder's cuts leave of a list: both decoders return the clipped tabs, unless a
      cut falls inside a character. */
  lemma ClippedRoundTrip(tabs: seq<TabInfo>, utf8: Utf8)
    requires |tabs| < U32_LIMIT
    ensures Strict(Encode(tabs), utf8)
            == if forall i :: 0 <= i < |tabs| ==> ReadableTab(tabs[i], utf8) then Ok(ClipTabs(tabs))
               else Err(InvalidUtf8)
    ensures Lenient(Encode(tabs), utf8) == Strict(Encode(tabs), utf8).ToOption()
  {
    hide ParseTabs, EncodeTabs, ReadableTab, U32At, Encode;
    EncodedCount(tabs);
    TabsRoundTrip(tabs, [], utf8);
    assert EncodeTabs(tabs) + [] == EncodeTabs(tabs);
    assert |Encode(tabs)| >= 4 by { EncodedLength(tabs); }
  }

  lemma ParsedTabFits(s: seq<byte>, utf8: Utf8)
    requires ParseTab(s, utf8).Ok?
    ensures var tab := ParseTab(s, utf8).value.0; Fits(tab) && utf8(tab.name) && utf8(tab.title) && utf8(tab.pwd)
  {
  }

  lemma {:induction false} ParsedTabsFit(s: seq<byte>, n: nat, utf8: Utf8)
    requires ParseTabs(s, n, utf8).Ok?
    ensures var tabs := ParseTabs(s, n, utf8).value.0;
            && |tabs| == n
            && forall i :: 0 <= i < n ==>
                 Fits(tabs[i]) && utf8(tabs[i].name) && utf8(tabs[i].title) && utf8(tabs[i].pwd)
    decreases n
  {
    hide ParseTab, Fits;
    if n == 0 {
    } else {
      ParsedTabFits(s, utf8);
      ParsedTabsFit(ParseTab(s, utf8).value.1, n - 1, utf8);
    }
  }

  /** For tabs whose strings are UTF-8: the encoding decodes to the list itself exactly when every
      string fits its 16-bit length and the list its 32-bit count. */
  lemma TabListRoundTripExactly(tabs: seq<TabInfo>, utf8: Utf8)
    requires forall i :: 0 <= i < |tabs| ==> utf8(tabs[i].name) && utf8(tabs[i].title) && utf8(tabs[i].pwd)
    ensures Strict(Encode(tabs), utf8) == Ok(tabs)
            <==> |tabs| < U32_LIMIT && forall i :: 0 <= i < |tabs| ==> Fits(tabs[i])
    ensures Lenient(Encode(tabs), utf8) == Some(tabs)
            <==> |tabs| < U32_LIMIT && forall i :: 0 <= i < |tabs| ==> Fits(tabs[i])
  {
    hide Encode, Strict, Lenient, Clip;
    if |tabs| >= U32_LIMIT {
      CountTruncated(tabs, utf8);
    } else {
      ClippedRoundTrip(tabs, utf8);
      if forall i :: 0 <= i < |tabs| ==> Fits(tabs[i]) {
        assert ClipTabs(tabs) == tabs;
      } else {
        var i :| 0 <= i < |tabs| && !Fits(tabs[i]);
        assert ClipTabs(tabs)[i] != tabs[i];
      }
    }
  }

  lemma CountTruncated(tabs: seq<TabInfo>, utf8: Utf8)
    requires |tabs| >= U32_LIMIT
    ensures Strict(Encode(tabs), utf8) != Ok(tabs) && Lenient(Encode(tabs), utf8) != Some(tabs)
  {
    hide ParseTabs, Encode;
    EncodedCount(tabs);
    EncodedLength(tabs);
    if ParseTabs(Encode(tabs)[4..], |tabs| % U32_LIMIT, utf8).Ok? {
      ParsedTabsFit(Encode(tabs)[4..], |tabs| % U32_LIMIT, utf8);
    }
  }

  /** Whatever bytes a list was decoded from, encoding it again loses nothing. */
  lemma DecodedListsRoundTrip(payload: seq<byte>, utf8: Utf8)
    requires Lenient(payload, utf8).Some?
    ensures Strict(Encode(Lenient(payload, utf8).value), utf8) == Ok(Lenient(payload, utf8).value)
  {
    hide Encode, Strict, ParseTabs, Fits;
    ParsedTabsFit(payload[4..], U32At(payload, 0), utf8);
    TabListRoundTripExactly(Lenient(payload, utf8).value, utf8);
  }
}
