/**
 What a caller makes of a message: failPending builds a JSON object around the error text without
 escaping it, and call looks for the member of that object. A char is a Unicode code point here.
 */
module TyphonFailure {
  import opened Wrappers
  import opened Decimal

  datatype Reply = Raw(text: string) | RpcError(text: string)

  // Text that may stand between the quotes of a JSON string as it is (section 7 of RFC 8259).
  predicate JsonSafe(s: string) {
    forall i | 0 <= i < |s| :: s[i] != '"' && s[i] != '\\' && s[i] >= ' '
  }

  // The texts that failPending puts around the error text.
  const FAILURE_HEAD := "{\"__rpc_error\":\""
  const FAILURE_TAIL := "\"}"

  function FailureText(reason: string): string {
    FAILURE_HEAD + reason + FAILURE_TAIL
  }

  // Reading JSON.

  // A code unit on its own; halves of surrogate pairs decode to the replacement character.
  function CodeUnit(n: nat): char
    requires n < 0x10000
  {
    if 0xD800 <= n < 0xE000 then '\U{FFFD}' else n as char
  }

  // The escape at the front of s, after its backslash: the character it stands for and its length.
  function Escaped(s: string): (r: Option<(char, nat)>)
    ensures r.Some? ==> 1 <= r.value.1 <= |s|
  {
    if s == "" then None
    else match s[0]
      case '"' => Some(('"', 1))
      case '\\' => Some(('\\', 1))
      case '/' => Some(('/', 1))
      case 'b' => Some((8 as char, 1))
      case 'f' => Some((12 as char, 1))
      case 'n' => Some(('\n', 1))
      case 'r' => Some(('\r', 1))
      case 't' => Some(('\t', 1))
      case 'u' =>
        if |s| < 5 then None
        else
          var a, b, c, d := HexDigit(s[1]), HexDigit(s[2]), HexDigit(s[3]), HexDigit(s[4]);
          if a.Some? && b.Some? && c.Some? && d.Some?
          then Some((CodeUnit(((a.value * 16 + b.value) * 16 + c.value) * 16 + d.value), 5))
          else None
      case _ => None
  }

  // A JSON string whose opening quote has been read: its text and what follows the closing quote.
  function StringBody(s: string): (r: Option<(string, string)>)
    ensures r.Some? ==> |r.value.0| + 1 + |r.value.1| <= |s|
    decreases |s|
  {
    if s == "" || s[0] < ' ' then None
    else if s[0] == '"' then Some(("", s[1..]))
    else if s[0] == '\\' then
      match Escaped(s[1..])
      case None => None
      case Some(e) =>
        match StringBody(s[1 + e.1..])
        case None => None
        case Some(r) => Some(([e.0] + r.0, r.1))
    else
      match StringBody(s[1..])
      case None => None
      case Some(r) => Some(([s[0]] + r.0, r.1))
  }

  predicate IsJsonSpace(c: char) { c == ' ' || c == '\t' || c == '\n' || c == '\r' }

  function SkipSpace(s: string): (r: string)
    ensures |r| <= |s|
  {
    if s != "" && IsJsonSpace(s[0]) then SkipSpace(s[1..]) else s
  }

  // What follows the character c, which may have space in front of it.
  function After(c: char, s: string): (r: Option<string>)
    ensures r.Some? ==> |r.value| < |s|
  {
    var t := SkipSpace(s);
    if t != "" && t[0] == c then Some(t[1..]) else None
  }

  function ReadString(s: string): (r: Option<(string, string)>)
    ensures r.Some? ==> |r.value.0| + 2 + |r.value.1| <= |s|
  {
    match After('"', s)
    case Some(t) => StringBody(t)
    case None => None
  }

  // A member whose value is a string: its name, its value, and what follows.
  function ReadMember(s: string): (r: Option<(string, string, string)>)
    ensures r.Some? ==> |r.value.1| + 5 + |r.value.2| <= |s|
  {
    match ReadString(s)
    case None => None
    case Some((name, afterName)) =>
      match After(':', afterName)
      case None => None
      case Some(t) =>
        match ReadString(t)
        case None => None
        case Some((value, rest)) => Some((name, value, rest))
  }

  // The further members up to the closing brace.
  function ReadMore(s: string): (r: Option<(seq<(string, string)>, string)>)
    decreases |s|
  {
    match After('}', s)
    case Some(rest) => Some(([], rest))
    case None =>
      match After(',', s)
      case None => None
      case Some(t) => ReadMembers(t)
  }

  function ReadMembers(s: string): Option<(seq<(string, string)>, string)>
    decreases |s|
  {
    match ReadMember(s)
    case None => None
    case Some((name, value, rest)) =>
      match ReadMore(rest)
      case None => None
      case Some((members, end)) => Some(([(name, value)] + members, end))
  }

  // The members of an object with at least one, all of whose values are strings.
  function ReadObject(s: string): Option<seq<(string, string)>> {
    match After('{', s)
    case None => None
    case Some(t) =>
      match ReadMembers(t)
      case Some((members, end)) => if SkipSpace(end) == "" then Some(members) else None
      case None => None
  }

  // Go takes a member for a field whose name differs only in case.
  function Fold(name: string): (r: string)
    ensures |r| == |name|
  {
    seq(|name|, i requires 0 <= i < |name| =>
      if 'A' <= name[i] <= 'Z' then ((name[i] as int) + 32) as char else name[i])
  }

  // Folding makes the k-th capital letter the k-th small one and leaves everything else alone.
  lemma FoldIs(name: string, i: nat, k: nat)
    requires i < |name| && k < 26
    ensures name[i] as int == 'A' as int + k ==> Fold(name)[i] as int == 'a' as int + k
    ensures name[i] < 'A' || name[i] > 'Z' ==> Fold(name)[i] == name[i]
  {
  }

  // The member that call asks for. The last one of that name counts.
  const MEMBER := "__rpc_error"

  function LastOf(name: string, members: seq<(string, string)>): Option<string> {
    if members == [] then None
    else
      var (n, value) := members[|members| - 1];
      if Fold(n) == name then Some(value) else LastOf(name, members[..|members| - 1])
  }

  function ProbeError(name: string, raw: string): Option<string> {
    match ReadObject(raw)
    case Some(members) => LastOf(name, members)
    case None => None
  }

  // The end of call: a message whose probe finds a non-empty error is one, any other is the result.
  function Interpret(name: string, raw: string): Reply {
    match ProbeError(name, raw)
    case Some(e) => if e != "" then RpcError(e) else Raw(raw)
    case None => Raw(raw)
  }

  // What the caller gets for a message.
  function CallerSees(raw: string): Reply {
    Interpret(MEMBER, raw)
  }

  // Text that needs no escaping is read back as it is.
  lemma {:induction false} SafeIsVerbatim(body: string, rest: string)
    requires JsonSafe(body)
    ensures StringBody(body + "\"" + rest) == Some((body, rest))
  {
    var s := body + "\"" + rest;
    if body == "" {
      assert s == "\"" + rest;
    } else {
      assert s[1..] == body[1..] + "\"" + rest;
      SafeIsVerbatim(body[1..], rest);
      assert [body[0]] + body[1..] == body;
    }
  }

  // A string read back in full length had no escapes in it.
  lemma {:induction false} FullLengthIsSafe(s: string)
    requires StringBody(s).Some?
    requires |StringBody(s).value.0| + 1 + |StringBody(s).value.1| == |s|
    ensures JsonSafe(StringBody(s).value.0)
    decreases |s|
  {
    if s[0] != '"' && s[0] != '\\' {
      FullLengthIsSafe(s[1..]);
    }
  }

  lemma AfterFirst(c: char, rest: string)
    requires !IsJsonSpace(c)
    ensures After(c, [c] + rest) == Some(rest)
  {
    assert ([c] + rest)[1..] == rest;
  }

  // The first member of the object that failPending builds.
  lemma ReadFirstMember(name: string, s: string)
    requires JsonSafe(name)
    ensures var r := ReadMember(['"'] + (name + "\"" + ([':'] + (['"'] + s))));
            if StringBody(s).Some? then r == Some((name, StringBody(s).value.0, StringBody(s).value.1)) else r == None
  {
    AfterFirst('"', name + "\"" + ([':'] + (['"'] + s)));
    SafeIsVerbatim(name, [':'] + (['"'] + s));
    AfterFirst(':', ['"'] + s);
    AfterFirst('"', s);
  }

  // The object around the error text, opened up.
  function Opened(name: string, s: string): string {
    ['{'] + (['"'] + (name + "\"" + ([':'] + (['"'] + s))))
  }

  // What the probe makes of a member and what follows it.
  function FromMember(name: string, first: string, rest: string): Option<string> {
    match ReadMore(rest)
    case None => None
    case Some((members, end)) => if SkipSpace(end) == "" then LastOf(name, [(name, first)] + members) else None
  }

  // What the probe makes of the object, by the string that the error text and the tail begin with.
  lemma ProbeOpened(name: string, s: string)
    requires JsonSafe(name) && Fold(name) == name
    ensures ProbeError(name, Opened(name, s)) ==
      if StringBody(s).Some? then FromMember(name, StringBody(s).value.0, StringBody(s).value.1) else None
  {
    AfterFirst('{', ['"'] + (name + "\"" + ([':'] + (['"'] + s))));
    ReadFirstMember(name, s);
  }

  // Members read from a text are shorter than it.
  predicate AllShorter(members: seq<(string, string)>, n: int) {
    forall i | 0 <= i < |members| :: |members[i].1| + 5 < n
  }

  lemma {:induction false} MoreAreShorter(s: string)
    requires ReadMore(s).Some?
    ensures AllShorter(ReadMore(s).value.0, |s|)
    decreases |s|, 1
  {
    if After('}', s).None? {
      MembersAreShorter(After(',', s).value);
    }
  }

  lemma {:induction false} MembersAreShorter(s: string)
    requires ReadMembers(s).Some?
    ensures AllShorter(ReadMembers(s).value.0, |s| + 1)
    decreases |s|, 0
  {
    MoreAreShorter(ReadMember(s).value.2);
  }

  lemma {:induction false} LastIsShorter(name: string, members: seq<(string, string)>, n: int)
    requires AllShorter(members, n) && LastOf(name, members).Some?
    ensures |LastOf(name, members).value| + 5 < n
  {
    if Fold(members[|members| - 1].0) != name {
      LastIsShorter(name, members[..|members| - 1], n);
    }
  }

  // The last member of a name, with one more in front.
  lemma {:induction false} LastOfCons(name: string, first: (string, string), members: seq<(string, string)>)
    requires Fold(first.0) == name
    ensures LastOf(name, [first] + members) ==
      if LastOf(name, members).Some? then LastOf(name, members) else Some(first.1)
  {
    if members != [] {
      var all := [first] + members;
      assert all[..|all| - 1] == [first] + members[..|members| - 1];
      LastOfCons(name, first, members[..|members| - 1]);
    }
  }

  lemma EndOfObject()
    ensures ReadMore("}") == Some(([], ""))
  {
    assert "}" == ['}'] + "";
    AfterFirst('}', "");
  }

  // The probe finds the error text itself only if it needs no escaping.
  lemma FoundIsSafe(name: string, reason: string)
    requires JsonSafe(name) && Fold(name) == name
    requires ProbeError(name, Opened(name, reason + FAILURE_TAIL)) == Some(reason)
    ensures JsonSafe(reason)
  {
    var s := reason + FAILURE_TAIL;
    ProbeOpened(name, s);
    var (value, rest) := StringBody(s).value;
    var (members, end) := ReadMore(rest).value;
    LastOfCons(name, (name, value), members);
    MoreAreShorter(rest);
    if LastOf(name, members).Some? {
      LastIsShorter(name, members, |rest|);
    } else {
      assert value == reason && rest != "";
      FullLengthIsSafe(s);
    }
  }

  lemma SafeIsFound(name: string, reason: string)
    requires JsonSafe(name) && Fold(name) == name && JsonSafe(reason)
    ensures ProbeError(name, Opened(name, reason + FAILURE_TAIL)) == Some(reason)
  {
    SafeIsVerbatim(reason, "}");
    assert reason + FAILURE_TAIL == reason + "\"" + "}";
    ProbeOpened(name, reason + FAILURE_TAIL);
    EndOfObject();
    assert SkipSpace("") == "";
    LastOfCons(name, (name, reason), []);
  }

  // The object that failPending builds is one with the member that call asks for.
  lemma FailureHasMember(reason: string)
    ensures FailureText(reason) == Opened(MEMBER, reason + FAILURE_TAIL)
    ensures JsonSafe(MEMBER) && Fold(MEMBER) == MEMBER
  {
    HeadParts(MEMBER, reason);
  }

  lemma HeadParts(name: string, reason: string)
    ensures ("{\"" + name + "\":\"") + reason + FAILURE_TAIL == Opened(name, reason + FAILURE_TAIL)
  {
  }

  // The failure reaches the caller as an error in its own words exactly if the text is not empty and
  // needs no escaping; otherwise the caller sees another text or takes the failure for a result.
  lemma FailureIsReported(reason: string)
    ensures CallerSees(FailureText(reason)) == RpcError(reason) <==> JsonSafe(reason) && reason != ""
  {
    FailureHasMember(reason);
    ReportedIff(MEMBER, reason);
  }

  lemma ReportedIff(name: string, reason: string)
    requires JsonSafe(name) && Fold(name) == name
    ensures Interpret(name, Opened(name, reason + FAILURE_TAIL)) == RpcError(reason) <==>
        JsonSafe(reason) && reason != ""
  {
    if JsonSafe(reason) {
      SafeIsFound(name, reason);
    } else if ProbeError(name, Opened(name, reason + FAILURE_TAIL)) == Some(reason) {
      FoundIsSafe(name, reason);
    }
  }

  // A text with exactly one quote in it, and nothing else to escape, makes the failure look like a result.

  lemma {:induction false} SpaceKeeps(s: string, c: char)
    requires !IsJsonSpace(c)
    ensures c in s <==> c in SkipSpace(s)
  {
    if s != "" && IsJsonSpace(s[0]) {
      SpaceKeeps(s[1..], c);
      assert s == [s[0]] + s[1..];
    }
  }

  // Skipping space only takes off a front.
  lemma {:induction false} SpaceIsFront(s: string)
    ensures |SkipSpace(s)| <= |s| && SkipSpace(s) == s[|s| - |SkipSpace(s)|..]
  {
    if s != "" && IsJsonSpace(s[0]) {
      SpaceIsFront(s[1..]);
    }
  }

  lemma {:induction false} BodyHasQuote(s: string)
    requires StringBody(s).Some?
    ensures '"' in s
    decreases |s|
  {
    if s[0] != '"' {
      if s[0] == '\\' {
        var e := Escaped(s[1..]).value;
        BodyHasQuote(s[1 + e.1..]);
        assert s[1 + e.1..] == s[1..][e.1..];
      } else {
        BodyHasQuote(s[1..]);
      }
    }
  }

  // One quote, followed by a brace, is no member.
  lemma NoMemberInTail(a: string)
    requires '"' !in a
    ensures ReadMember(a + FAILURE_TAIL).None?
  {
    var s := a + FAILURE_TAIL;
    SpaceIsFront(s);
    var t := SkipSpace(s);
    if t != "" && t[0] == '"' {
      assert s[|s| - |t|] == '"';
      assert |t| == 2 && t[1..] == "}";
      if StringBody(t[1..]).Some? {
        BodyHasQuote(t[1..]);
      }
    }
  }

  lemma TailEndsNothing(a: string)
    requires '"' !in a
    ensures ReadMore(a + FAILURE_TAIL).Some? ==> SkipSpace(ReadMore(a + FAILURE_TAIL).value.1) != ""
  {
    var s := a + FAILURE_TAIL;
    SpaceIsFront(s);
    SpaceKeeps(s, '"');
    var t := SkipSpace(s);
    assert s[|a|] == '"' && '"' in s;
    if t[0] == '}' {
      assert '"' in t && '"' in t[1..];
      SpaceKeeps(t[1..], '"');
    } else if t[0] == ',' {
      var k := |s| - |t|;
      assert s[k] == ',' && k < |a|;
      assert t[1..] == a[k + 1..] + FAILURE_TAIL;
      NoMemberInTail(a[k + 1..]);
    }
  }

  lemma QuotedFailureIsTakenForResult(before: string, after: string)
    requires JsonSafe(before) && JsonSafe(after)
    ensures var raw := FailureText(before + "\"" + after); CallerSees(raw) == Raw(raw)
  {
    var reason := before + "\"" + after;
    FailureHasMember(reason);
    assert reason + FAILURE_TAIL == before + "\"" + (after + FAILURE_TAIL);
    SafeIsVerbatim(before, after + FAILURE_TAIL);
    ProbeOpened(MEMBER, reason + FAILURE_TAIL);
    TailEndsNothing(after);
  }

  // A text that closes the string and brings a member of its own makes the caller see that one.
  lemma SmuggledMemberIsReported(before: string, other: string)
    requires JsonSafe(before) && JsonSafe(other) && other != ""
    ensures CallerSees(FailureText(before + "\",\"__rpc_error\":\"" + other)) == RpcError(other)
  {
    var reason := before + "\",\"__rpc_error\":\"" + other;
    assert "\",\"" + MEMBER + "\":\"" == "\",\"__rpc_error\":\"";
    FailureHasMember(reason);
    SmuggledIsFound(MEMBER, before, other, reason);
  }

  lemma SmuggledIsFound(name: string, before: string, other: string, reason: string)
    requires JsonSafe(name) && Fold(name) == name && JsonSafe(before) && JsonSafe(other)
    requires reason == before + ("\",\"" + name + "\":\"") + other
    ensures ProbeError(name, Opened(name, reason + FAILURE_TAIL)) == Some(other)
  {
    var second := ['"'] + (name + "\"" + ([':'] + (['"'] + (other + FAILURE_TAIL))));
    SmuggledParts(before, name, other);
    SafeIsVerbatim(before, [','] + second);
    ProbeOpened(name, reason + FAILURE_TAIL);
    SmuggledMember(name, other, second);
    LastOfCons(name, (name, before), [(name, other)]);
    LastOfCons(name, (name, other), []);
    assert [(name, other)] == [(name, other)] + [];
    assert SkipSpace("") == "";
  }

  lemma SmuggledParts(before: string, name: string, other: string)
    ensures (before + ("\",\"" + name + "\":\"") + other) + FAILURE_TAIL ==
      before + "\"" + ([','] + (['"'] + (name + "\"" + ([':'] + (['"'] + (other + FAILURE_TAIL))))))
  {
  }

  lemma SmuggledMember(name: string, other: string, second: string)
    requires JsonSafe(name) && JsonSafe(other)
    requires second == ['"'] + (name + "\"" + ([':'] + (['"'] + (other + FAILURE_TAIL))))
    ensures ReadMore([','] + second) == Some(([(name, other)], ""))
  {
    AfterFirst(',', second);
    assert After('}', [','] + second).None?;
    ReadFirstMember(name, other + FAILURE_TAIL);
    SafeIsVerbatim(other, "}");
    assert other + FAILURE_TAIL == other + "\"" + "}";
    EndOfObject();
    assert [(name, other)] + [] == [(name, other)];
  }
}
