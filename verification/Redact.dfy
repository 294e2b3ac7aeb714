/**
 * Log redaction, apps/broker/src/logging/redact.ts: scrubbing of digit runs and the recursive walk over a logged value.
 */
module Redact {
  import opened Common
  import Json
  import Radix

  type Text = Json.Text

  const NID_DIGITS: nat := 16
  const MAX_STRING_LENGTH: nat := 512
  const MAX_DEPTH: nat := 6
  const MAX_ARRAY_ITEMS: nat := 32
  const MAX_OBJECT_KEYS: nat := 64

  const REDACTED: Text := Json.Ascii("[redacted]")
  const REDACTED_NID: Text := Json.Ascii("[redacted-nid]")
  const TRUNCATED: Text := [0x2026] + Json.Ascii("[truncated]")

  // -------------------------------------------------------------- digit runs

  /** Sixteen consecutive digits begin at `i`. */
  predicate RunAt(s: Text, i: int) {
    0 <= i && i + NID_DIGITS <= |s| && forall k :: i <= k < i + NID_DIGITS ==> Json.IsDigit(s[k])
  }

  ghost predicate NoRun(s: Text) { forall i :: !RunAt(s, i) }

  predicate NoDigits(s: Text) { forall i :: 0 <= i < |s| ==> !Json.IsDigit(s[i]) }

  /** How many digits `s` begins with. */
  function Lead(s: Text): (n: nat)
    ensures n <= |s| && (forall k :: 0 <= k < n ==> Json.IsDigit(s[k])) && (n < |s| ==> !Json.IsDigit(s[n]))
  {
    if s == [] || !Json.IsDigit(s[0]) then 0 else 1 + Lead(s[1..])
  }

  /** `value.replace(/\d{16,}/g, '[redacted-nid]')` */
  function ScrubRuns(s: Text): Text {
    if s == [] then []
    else
      var n := Lead(s);
      if n == 0 then [s[0]] + ScrubRuns(s[1..])
      else (if n >= NID_DIGITS then REDACTED_NID else s[..n]) + ScrubRuns(s[n..])
  }

  function ScrubString(s: Text): Text {
    var t := ScrubRuns(s);
    if |t| > MAX_STRING_LENGTH then t[..MAX_STRING_LENGTH] + TRUNCATED else t
  }

  lemma ShortHasNoRun(s: Text)
    requires |s| < NID_DIGITS
    ensures NoRun(s)
  {
  }

  lemma NoDigitsNoRun(s: Text)
    requires NoDigits(s)
    ensures NoRun(s)
  {
    forall i ensures !RunAt(s, i) { assert 0 <= i < |s| ==> !Json.IsDigit(s[i]); }
  }

  lemma PrefixNoRun(s: Text, n: nat)
    requires NoRun(s) && n <= |s|
    ensures NoRun(s[..n])
  {
    forall i ensures !RunAt(s[..n], i) {
      assert !RunAt(s, i);
      assert forall k :: 0 <= k < n ==> s[..n][k] == s[k];
    }
  }

  /** Joining cannot create a run across a non-digit. */
  lemma JoinNoRun(a: Text, b: Text)
    requires NoRun(a) && NoRun(b)
    requires a == [] || b == [] || !Json.IsDigit(a[|a| - 1]) || !Json.IsDigit(b[0])
    ensures NoRun(a + b)
  {
    var s := a + b;
    assert forall k :: 0 <= k < |a| ==> s[k] == a[k];
    assert forall k :: 0 <= k < |b| ==> s[|a| + k] == b[k];
    forall i ensures !RunAt(s, i) {
      assert !RunAt(a, i) && !RunAt(b, i - |a|);
    }
  }

  /** A scrubbed text begins with a digit only where the original did. */
  lemma ScrubLead(s: Text)
    requires s != [] && !Json.IsDigit(s[0])
    ensures ScrubRuns(s) != [] && ScrubRuns(s)[0] == s[0]
  {
  }

  lemma {:induction false} ScrubbedHasNoRun(s: Text)
    ensures NoRun(ScrubRuns(s))
  {
    if s == [] {
      ShortHasNoRun([]);
    } else {
      var n := Lead(s);
      if n == 0 {
        ScrubbedHasNoRun(s[1..]);
        ShortHasNoRun([s[0]]);
        JoinNoRun([s[0]], ScrubRuns(s[1..]));
      } else {
        ScrubbedHasNoRun(s[n..]);
        if n < |s| { ScrubLead(s[n..]); }
        if n >= NID_DIGITS { ShortHasNoRun(REDACTED_NID); } else { ShortHasNoRun(s[..n]); }
        if n == |s| { assert s[n..] == []; }
        JoinNoRun(if n >= NID_DIGITS then REDACTED_NID else s[..n], ScrubRuns(s[n..]));
      }
    }
  }

  /** Whatever is logged as a string holds no sixteen consecutive digits, truncated or not. */
  lemma ScrubStringHasNoRun(s: Text)
    ensures NoRun(ScrubString(s))
  {
    hide NoRun;
    var t := ScrubRuns(s);
    ScrubbedHasNoRun(s);
    if |t| > MAX_STRING_LENGTH {
      PrefixNoRun(t, MAX_STRING_LENGTH);
      ShortHasNoRun(TRUNCATED);
      JoinNoRun(t[..MAX_STRING_LENGTH], TRUNCATED);
    }
  }

  lemma {:induction false} ScrubUnchanged(s: Text)
    ensures ScrubRuns(s) == s <==> NoRun(s)
  {
    if NoRun(s) { ScrubKeeps(s); } else if ScrubRuns(s) == s { ScrubbedHasNoRun(s); }
  }

  lemma SuffixNoRun(s: Text, n: nat)
    requires NoRun(s) && n <= |s|
    ensures NoRun(s[n..])
  {
    forall i ensures !RunAt(s[n..], i) {
      assert !RunAt(s, i + n);
      if RunAt(s[n..], i) {
        forall k | i + n <= k < i + n + NID_DIGITS ensures Json.IsDigit(s[k]) { assert s[n..][k - n] == s[k]; }
      }
    }
  }

  lemma {:induction false} ScrubKeeps(s: Text)
    requires NoRun(s)
    ensures ScrubRuns(s) == s
  {
    if s != [] {
      var n := Lead(s);
      assert !RunAt(s, 0);
      var k := if n == 0 then 1 else n;
      SuffixNoRun(s, k);
      hide NoRun;
      ScrubKeeps(s[k..]);
      assert s == s[..k] + s[k..];
    }
  }

  /** How many digits two texts in a row begin with, if no digits of theirs meet. */
  lemma {:induction false} LeadJoin(a: Text, b: Text)
    requires a != [] && (b == [] || !Json.IsDigit(a[|a| - 1]) || !Json.IsDigit(b[0]))
    ensures Lead(a + b) == Lead(a)
  {
    assert (a + b)[0] == a[0] && (a + b)[1..] == a[1..] + b;
    if |a| == 1 {
      assert a[1..] + b == b;
    } else if Json.IsDigit(a[0]) {
      LeadJoin(a[1..], b);
    }
  }

  /** The length of the digits, or the one other unit, that a text begins with. */
  function First(s: Text): (n: nat)
    requires s != []
    ensures 1 <= n <= |s|
  {
    if Lead(s) == 0 then 1 else Lead(s)
  }

  lemma ScrubFirst(s: Text)
    requires s != []
    ensures ScrubRuns(s) == (if Lead(s) >= NID_DIGITS then REDACTED_NID else s[..First(s)]) + ScrubRuns(s[First(s)..])
  {
    hide Lead;
    assert s[..1] == [s[0]];
  }

  lemma CutJoined(a: Text, b: Text, n: nat)
    requires n <= |a|
    ensures (a + b)[n..] == a[n..] + b && (a + b)[..n] == a[..n] && (n < |a| ==> a[n..][|a| - n - 1] == a[|a| - 1])
  {
  }

  /** Where no digits meet, two texts are scrubbed one by one. */
  lemma {:induction false} ScrubJoin(a: Text, b: Text)
    requires a == [] || b == [] || !Json.IsDigit(a[|a| - 1]) || !Json.IsDigit(b[0])
    ensures ScrubRuns(a + b) == ScrubRuns(a) + ScrubRuns(b)
    decreases |a|
  {
    hide ScrubRuns, Lead;
    if a == [] {
      ScrubNothing();
      assert a + b == b;
    } else {
      LeadJoin(a, b);
      ScrubFirst(a);
      ScrubFirst(a + b);
      var n := First(a);
      CutJoined(a, b, n);
      ScrubJoin(a[n..], b);
    }
  }

  lemma {:induction false} AllDigits(run: Text)
    requires forall i :: 0 <= i < |run| ==> Json.IsDigit(run[i])
    ensures Lead(run) == |run|
  {
    if run != [] { AllDigits(run[1..]); }
  }

  /**
   * A maximal run of sixteen digits or more becomes the mark, and the text before and after it is scrubbed by itself.
   * As a text without a run stays as it is, this says what becomes of every text.
   */
  lemma RunIsReplaced(a: Text, run: Text, b: Text)
    requires |run| >= 16 && forall i :: 0 <= i < |run| ==> Json.IsDigit(run[i])
    requires (a == [] || !Json.IsDigit(a[|a| - 1])) && (b == [] || !Json.IsDigit(b[0]))
    ensures ScrubRuns(a + run + b) == ScrubRuns(a) + REDACTED_NID + ScrubRuns(b)
  {
    hide ScrubRuns;
    RunAlone(run);
    ScrubJoin(a, run);
    assert (a + run)[|a + run| - 1] == run[|run| - 1];
    ScrubJoin(a + run, b);
  }

  lemma RunAlone(run: Text)
    requires |run| >= 16 && forall i :: 0 <= i < |run| ==> Json.IsDigit(run[i])
    ensures ScrubRuns(run) == REDACTED_NID
  {
    hide ScrubRuns, Lead;
    AllDigits(run);
    ScrubFirst(run);
    ScrubNothing();
    assert run[|run|..] == [] && REDACTED_NID + [] == REDACTED_NID;
  }

  lemma ScrubNothing()
    ensures ScrubRuns([]) == []
  {
  }

  /** Already cut: a scrubbed text of exactly the length limit, with the truncation mark after it. */
  predicate AlreadyCut(s: Text) { |s| > MAX_STRING_LENGTH && s[MAX_STRING_LENGTH..] == TRUNCATED }

  /**
   * Scrubbing leaves a text alone exactly when it holds no run and is short enough or already cut; so scrubbing twice
   * is scrubbing once.
   */
  lemma ScrubStringUnchanged(s: Text)
    ensures ScrubString(s) == s <==> NoRun(s) && (|s| <= 512 || AlreadyCut(s))
    ensures ScrubString(ScrubString(s)) == ScrubString(s)
  {
    hide NoRun, ScrubRuns;
    FixedPoint(s);
    ScrubStringHasNoRun(s);
    FixedPoint(ScrubString(s));
  }

  lemma FixedPoint(s: Text)
    ensures ScrubString(s) == s <==> NoRun(s) && (|s| <= MAX_STRING_LENGTH || AlreadyCut(s))
  {
    hide NoRun, ScrubRuns;
    ScrubUnchanged(s);
    if ScrubString(s) == s { ScrubStringHasNoRun(s); }
    if AlreadyCut(s) { assert s == s[..MAX_STRING_LENGTH] + TRUNCATED; }
  }

  // ------------------------------------------------------------- logged values

  /** A tree-shaped value. Numbers, big integers and dates are their rendered text. */
  datatype Value =
    | Null | Undefined | Bool(b: bool) | Str(s: Text) | Num(text: Text) | BigInt(digits: Text)
    | Opaque                                                    // a function or a symbol
    | Binary(bytes: seq<Byte>) | Date(iso: Text)
    | Failure(name: Text, message: Text, stack: Option<Text>)   // an Error
    | Arr(items: Items) | SetOf(elements: Items)
    | Obj(members: Members) | MapOf(entries: Members)
  datatype Items = NoItems | Item(head: Value, tail: Items)
  datatype Members = NoMembers | Member(key: Text, value: Value, rest: Members)

  type Denied = Text -> bool

  const DEPTH_LIMIT: Text := Json.Ascii("[depth-limit]")
  const KEY_LIMIT: Text := Json.Ascii("[key-limit]")
  const ELLIPSIS: Text := [0x2026]

  function Decimal(n: nat): (t: Text)
    ensures |t| == |Radix.Minimal(10, n)|
  {
    var ds := Radix.Minimal(10, n);
    seq(|ds|, i requires 0 <= i < |ds| => 0x30 + ds[i])
  }

  function BinaryText(n: nat): Text {
    Json.Ascii("[binary ") + (Decimal(n) + Json.Ascii(" bytes]"))
  }

  function MoreText(n: nat): Text { Json.Ascii("[+") + (Decimal(n) + Json.Ascii(" more]")) }

  function Length(xs: Items): nat { if xs.NoItems? then 0 else 1 + Length(xs.tail) }

  function Size(v: Value): nat {
    match v
    case Arr(xs) => 1 + ItemsSize(xs)
    case SetOf(xs) => 1 + ItemsSize(xs)
    case Obj(ms) => 1 + MembersSize(ms)
    case MapOf(ms) => 1 + MembersSize(ms)
    case _ => 0
  }

  function ItemsSize(xs: Items): nat { if xs.NoItems? then 0 else 1 + Size(xs.head) + ItemsSize(xs.tail) }

  function MembersSize(ms: Members): nat { if ms.NoMembers? then 0 else 1 + Size(ms.value) + MembersSize(ms.rest) }

  predicate HasRun(s: Text) { exists i :: 0 <= i < |s| && RunAt(s, i) }

  /** `out[k] = v`: a key that is there keeps its place. */
  function Put(out: Members, k: Text, v: Value): Members {
    if out.NoMembers? then Member(k, v, NoMembers)
    else if out.key == k then Member(k, v, out.rest)
    else Member(out.key, out.value, Put(out.rest, k, v))
  }

  function Redacted(denied: Denied, v: Value, depth: nat): Value
    decreases Size(v)
  {
    match v
    case Str(s) => Str(ScrubString(s))
    case Num(t) => if HasRun(t) then Str(REDACTED_NID) else v
    case BigInt(t) => Str(ScrubString(t))
    case Opaque => Str(REDACTED)
    case Binary(bytes) => Str(BinaryText(|bytes|))
    case Date(iso) => Str(iso)
    case Failure(name, message, stack) =>
      Failure(name, ScrubString(message),
              if stack.Some? && stack.value != [] then Some(ScrubString(stack.value)) else None)
    case Arr(xs) =>
      if depth >= MAX_DEPTH then Str(DEPTH_LIMIT)
      else Arr(RedactedItems(denied, xs, depth + 1, MAX_ARRAY_ITEMS))
    case SetOf(xs) =>
      if depth >= MAX_DEPTH then Str(DEPTH_LIMIT)
      else Arr(RedactedItems(denied, xs, depth + 1, MAX_ARRAY_ITEMS))
    case Obj(ms) =>
      if depth >= MAX_DEPTH then Str(DEPTH_LIMIT)
      else Obj(RedactedMembers(denied, ms, depth + 1, 0, NoMembers))
    case MapOf(ms) =>
      if depth >= MAX_DEPTH then Str(DEPTH_LIMIT)
      else Obj(RedactedMembers(denied, ms, depth + 1, 0, NoMembers))
    case _ => v
  }

  /** The first `room` elements, then one saying how many more there were. */
  function RedactedItems(denied: Denied, xs: Items, depth: nat, room: nat): Items
    decreases ItemsSize(xs)
  {
    if xs.NoItems? then NoItems
    else if room == 0 then Item(Str(MoreText(Length(xs))), NoItems)
    else Item(Redacted(denied, xs.head, depth), RedactedItems(denied, xs.tail, depth, room - 1))
  }

  function RedactedMembers(denied: Denied, ms: Members, depth: nat, keys: nat, out: Members): Members
    decreases MembersSize(ms)
  {
    if ms.NoMembers? then out
    else if keys >= MAX_OBJECT_KEYS then Put(out, ELLIPSIS, Str(KEY_LIMIT))
    else
      var v := if denied(ms.key) then Str(REDACTED) else Redacted(denied, ms.value, depth);
      RedactedMembers(denied, ms.rest, depth, keys + 1, Put(out, ms.key, v))
  }

  // ---------------------------------------------------------- noninterference

  /** The values agree except beneath denied field names, where anything may differ, shape included. */
  predicate Agree(denied: Denied, v: Value, w: Value)
    decreases Size(v)
  {
    match v
    case Arr(xs) => w.Arr? && AgreeItems(denied, xs, w.items)
    case SetOf(xs) => w.SetOf? && AgreeItems(denied, xs, w.elements)
    case Obj(ms) => w.Obj? && AgreeMembers(denied, ms, w.members)
    case MapOf(ms) => w.MapOf? && AgreeMembers(denied, ms, w.entries)
    case Binary(bytes) => w.Binary? && |bytes| == |w.bytes|
    case _ => v == w
  }

  predicate AgreeItems(denied: Denied, xs: Items, ys: Items)
    decreases ItemsSize(xs)
  {
    if xs.NoItems? then ys.NoItems?
      else ys.Item? && Agree(denied, xs.head, ys.head) && AgreeItems(denied, xs.tail, ys.tail)
  }

  predicate AgreeMembers(denied: Denied, ms: Members, ns: Members)
    decreases MembersSize(ms)
  {
    if ms.NoMembers? then ns.NoMembers?
    else
      && ns.Member? && ms.key == ns.key && (denied(ms.key) || Agree(denied, ms.value, ns.value))
      && AgreeMembers(denied, ms.rest, ns.rest)
  }

  /** What lies beneath a denied field name never shows, at any depth, and no byte of a binary value ever shows. */
  lemma {:induction false} RedactionHidesDenied(denied: Denied, v: Value, w: Value, depth: nat)
    requires Agree(denied, v, w)
    ensures Redacted(denied, v, depth) == Redacted(denied, w, depth)
    decreases Size(v)
  {
    match v
    case Arr(xs) => ItemsHideDenied(denied, xs, w.items, depth + 1, MAX_ARRAY_ITEMS);
    case SetOf(xs) => ItemsHideDenied(denied, xs, w.elements, depth + 1, MAX_ARRAY_ITEMS);
    case Obj(ms) => MembersHideDenied(denied, ms, w.members, depth + 1, 0, NoMembers);
    case MapOf(ms) => MembersHideDenied(denied, ms, w.entries, depth + 1, 0, NoMembers);
    case _ =>
  }

  lemma {:induction false} ItemsHideDenied(denied: Denied, xs: Items, ys: Items, depth: nat, room: nat)
    requires AgreeItems(denied, xs, ys)
    ensures RedactedItems(denied, xs, depth, room) == RedactedItems(denied, ys, depth, room) && Length(xs) == Length(ys)
    decreases ItemsSize(xs)
  {
    if xs.Item? {
      RedactionHidesDenied(denied, xs.head, ys.head, depth);
      ItemsHideDenied(denied, xs.tail, ys.tail, depth, if room == 0 then 0 else room - 1);
    }
  }

  lemma {:induction false} MembersHideDenied(denied: Denied, ms: Members, ns: Members, depth: nat, keys: nat,
      out: Members)
    requires AgreeMembers(denied, ms, ns)
    ensures RedactedMembers(denied, ms, depth, keys, out) == RedactedMembers(denied, ns, depth, keys, out)
    decreases MembersSize(ms)
  {
    if ms.Member? && keys < MAX_OBJECT_KEYS {
      if !denied(ms.key) { RedactionHidesDenied(denied, ms.value, ns.value, depth); }
      var v := if denied(ms.key) then Str(REDACTED) else Redacted(denied, ms.value, depth);
      MembersHideDenied(denied, ms.rest, ns.rest, depth, keys + 1, Put(out, ms.key, v));
    }
  }

  // ------------------------------------------------------------------ scrubbing

  /** Sizes a JavaScript engine can have, and dates as `toISOString` writes them. */
  ghost predicate Plausible(v: Value) {
    match v
    case Binary(bytes) => |bytes| < Radix.Pow(10, 15)
    case Date(iso) => NoRun(iso)
    case Arr(xs) => Length(xs) < Radix.Pow(10, 15) && PlausibleItems(xs)
    case SetOf(xs) => Length(xs) < Radix.Pow(10, 15) && PlausibleItems(xs)
    case Obj(ms) => PlausibleMembers(ms)
    case MapOf(ms) => PlausibleMembers(ms)
    case _ => true
  }

  ghost predicate PlausibleItems(xs: Items) { xs.Item? ==> Plausible(xs.head) && PlausibleItems(xs.tail) }

  ghost predicate PlausibleMembers(ms: Members) { ms.Member? ==> Plausible(ms.value) && PlausibleMembers(ms.rest) }

  /** No string or rendered number in value position holds sixteen consecutive digits; an error's name is exempt. */
  ghost predicate Clean(v: Value) {
    match v
    case Str(s) => NoRun(s)
    case Num(t) => NoRun(t)
    case BigInt(t) => NoRun(t)
    case Date(iso) => NoRun(iso)
    case Binary(_) => false
    case Failure(_, message, stack) => NoRun(message) && (stack.Some? ==> NoRun(stack.value))
    case Arr(xs) => CleanItems(xs)
    case SetOf(xs) => CleanItems(xs)
    case Obj(ms) => CleanMembers(ms)
    case MapOf(ms) => CleanMembers(ms)
    case _ => true
  }

  ghost predicate CleanItems(xs: Items) { xs.Item? ==> Clean(xs.head) && CleanItems(xs.tail) }

  ghost predicate CleanMembers(ms: Members) { ms.Member? ==> Clean(ms.value) && CleanMembers(ms.rest) }

  lemma DecimalText(n: nat, before: Text, after: Text)
    requires n < Radix.Pow(10, 15) && before != [] && after != [] && NoDigits(before) && NoDigits(after)
    ensures NoRun(before + (Decimal(n) + after))
  {
    Radix.MinimalLength(10, n, 15);
    hide NoRun, Radix.Pow, Radix.Minimal;
    ShortHasNoRun(Decimal(n));
    NoDigitsNoRun(before);
    NoDigitsNoRun(after);
    JoinNoRun(Decimal(n), after);
    JoinNoRun(before, Decimal(n) + after);
  }

  lemma MarkersAreClean()
    ensures NoRun(REDACTED) && NoRun(REDACTED_NID) && NoRun(DEPTH_LIMIT) && NoRun(KEY_LIMIT)
  {
    ShortHasNoRun(REDACTED);
    ShortHasNoRun(REDACTED_NID);
    ShortHasNoRun(DEPTH_LIMIT);
    ShortHasNoRun(KEY_LIMIT);
  }

  lemma CountsAreClean(n: nat)
    requires n < Radix.Pow(10, 15)
    ensures NoRun(BinaryText(n)) && NoRun(MoreText(n))
  {
    hide NoRun, Radix.Pow;
    DecimalText(n, Json.Ascii("[binary "), Json.Ascii(" bytes]"));
    DecimalText(n, Json.Ascii("[+"), Json.Ascii(" more]"));
  }

  lemma {:induction false} PutClean(out: Members, k: Text, v: Value)
    requires CleanMembers(out) && Clean(v)
    ensures CleanMembers(Put(out, k, v))
  {
    hide Clean;
    if out.Member? && out.key != k { PutClean(out.rest, k, v); }
  }

  /** Nothing identity-shaped survives in value position, whatever the deny list. */
  lemma {:induction false} RedactionIsClean(denied: Denied, v: Value, depth: nat)
    requires Plausible(v)
    ensures Clean(Redacted(denied, v, depth))
    decreases Size(v)
  {
    hide NoRun, ScrubString, HasRun, BinaryText, RedactedItems, RedactedMembers, CleanItems, CleanMembers, Radix.Pow;
    MarkersAreClean();
    match v
    case Str(s) => ScrubStringHasNoRun(s);
    case Num(t) => RunOrNot(t);
    case BigInt(t) => ScrubStringHasNoRun(t);
    case Binary(bytes) => CountsAreClean(|bytes|);
    case Failure(_, message, stack) =>
      ScrubStringHasNoRun(message);
      if stack.Some? { ScrubStringHasNoRun(stack.value); }
    case Arr(xs) => ItemsAreClean(denied, xs, depth + 1, MAX_ARRAY_ITEMS);
    case SetOf(xs) => ItemsAreClean(denied, xs, depth + 1, MAX_ARRAY_ITEMS);
    case Obj(ms) => NothingIsClean(); MembersAreClean(denied, ms, depth + 1, 0, NoMembers);
    case MapOf(ms) => NothingIsClean(); MembersAreClean(denied, ms, depth + 1, 0, NoMembers);
    case _ =>
  }

  lemma NothingIsClean()
    ensures CleanMembers(NoMembers)
  {
  }

  lemma RunOrNot(t: Text)
    ensures HasRun(t) || NoRun(t)
  {
    if !HasRun(t) { forall i ensures !RunAt(t, i) {} }
  }

  lemma {:induction false} ItemsAreClean(denied: Denied, xs: Items, depth: nat, room: nat)
    requires PlausibleItems(xs) && Length(xs) < Radix.Pow(10, 15)
    ensures CleanItems(RedactedItems(denied, xs, depth, room))
    decreases ItemsSize(xs)
  {
    hide NoRun, Radix.Pow, Redacted;
    if xs.Item? {
      if room == 0 {
        CountsAreClean(Length(xs));
      } else {
        RedactionIsClean(denied, xs.head, depth);
        ItemsAreClean(denied, xs.tail, depth, room - 1);
      }
    }
  }

  lemma {:induction false} MembersAreClean(denied: Denied, ms: Members, depth: nat, keys: nat, out: Members)
    requires PlausibleMembers(ms) && CleanMembers(out)
    ensures CleanMembers(RedactedMembers(denied, ms, depth, keys, out))
    decreases MembersSize(ms)
  {
    hide NoRun, Redacted, Put;
    MarkersAreClean();
    if ms.Member? {
      if keys >= MAX_OBJECT_KEYS {
        PutClean(out, ELLIPSIS, Str(KEY_LIMIT));
      } else {
        RedactionIsClean(denied, ms.value, depth);
        var v := if denied(ms.key) then Str(REDACTED) else Redacted(denied, ms.value, depth);
        PutClean(out, ms.key, v);
        MembersAreClean(denied, ms.rest, depth, keys + 1, Put(out, ms.key, v));
      }
    }
  }

  // ------------------------------------------------- what redaction leaves alone

  predicate Has(ms: Members, k: Text) { ms.Member? && (ms.key == k || Has(ms.rest, k)) }

  function Count(ms: Members): nat { if ms.NoMembers? then 0 else 1 + Count(ms.rest) }

  function Append(ms: Members, more: Members): Members {
    if ms.NoMembers? then more else Member(ms.key, ms.value, Append(ms.rest, more))
  }

  ghost predicate Short(s: Text) { NoRun(s) && |s| <= MAX_STRING_LENGTH }

  /** Within every limit, nothing identity-shaped, nothing under a denied name; keys are distinct, as in any object. */
  ghost predicate Harmless(denied: Denied, v: Value, depth: nat)
    decreases Size(v)
  {
    match v
    case Str(s) => Short(s)
    case Num(t) => NoRun(t)
    case Failure(_, message, stack) => Short(message) && (stack.Some? ==> stack.value != [] && Short(stack.value))
    case Arr(xs) => depth < MAX_DEPTH && Length(xs) <= MAX_ARRAY_ITEMS && HarmlessItems(denied, xs, depth + 1)
    case Obj(ms) => depth < MAX_DEPTH && Count(ms) <= MAX_OBJECT_KEYS && HarmlessMembers(denied, ms, depth + 1)
    case _ => v.Null? || v.Undefined? || v.Bool?
  }

  ghost predicate HarmlessItems(denied: Denied, xs: Items, depth: nat)
    decreases ItemsSize(xs)
  {
    xs.Item? ==> Harmless(denied, xs.head, depth) && HarmlessItems(denied, xs.tail, depth)
  }

  ghost predicate HarmlessMembers(denied: Denied, ms: Members, depth: nat)
    decreases MembersSize(ms)
  {
    ms.Member? ==>
      && !denied(ms.key) && !Has(ms.rest, ms.key) && Harmless(denied, ms.value, depth)
      && HarmlessMembers(denied, ms.rest, depth)
  }

  /** Redaction keeps what it need not hide: a harmless value comes out as it went in. */
  lemma {:induction false} HarmlessUnchanged(denied: Denied, v: Value, depth: nat)
    requires Harmless(denied, v, depth)
    ensures Redacted(denied, v, depth) == v
    decreases Size(v)
  {
    hide NoRun, ScrubString, HasRun, RunAt;
    match v
    case Str(s) => FixedPoint(s);
    case Num(t) => RunExcluded(t);
    case Failure(_, message, stack) =>
      FixedPoint(message);
      if stack.Some? { FixedPoint(stack.value); }
    case Arr(xs) => HarmlessItemsUnchanged(denied, xs, depth + 1, MAX_ARRAY_ITEMS);
    case Obj(ms) => HarmlessMembersUnchanged(denied, ms, depth + 1, 0, NoMembers);
    case _ =>
  }

  lemma RunExcluded(t: Text)
    requires NoRun(t)
    ensures !HasRun(t)
  {
  }

  lemma {:induction false} HarmlessItemsUnchanged(denied: Denied, xs: Items, depth: nat, room: nat)
    requires HarmlessItems(denied, xs, depth) && Length(xs) <= room
    ensures RedactedItems(denied, xs, depth, room) == xs
    decreases ItemsSize(xs)
  {
    if xs.Item? {
      HarmlessUnchanged(denied, xs.head, depth);
      HarmlessItemsUnchanged(denied, xs.tail, depth, room - 1);
    }
  }

  ghost predicate Apart(out: Members, ms: Members) { forall k :: !(Has(out, k) && Has(ms, k)) }

  /** The loop appends each field to what it has built. */
  lemma {:induction false} HarmlessMembersUnchanged(denied: Denied, ms: Members, depth: nat, keys: nat, out: Members)
    requires HarmlessMembers(denied, ms, depth) && keys + Count(ms) <= MAX_OBJECT_KEYS && Apart(out, ms)
    ensures RedactedMembers(denied, ms, depth, keys, out) == Append(out, ms)
    decreases MembersSize(ms)
  {
    hide Redacted, Harmless;
    if ms.NoMembers? {
      AppendNothing(out);
    } else {
      HarmlessUnchanged(denied, ms.value, depth);
      assert Has(ms, ms.key) && !Has(out, ms.key);
      PutAppends(out, ms.key, ms.value);
      var out' := Put(out, ms.key, ms.value);
      forall k ensures !(Has(out', k) && Has(ms.rest, k)) { HasPut(out, ms.key, ms.value, k); }
      HarmlessMembersUnchanged(denied, ms.rest, depth, keys + 1, out');
      AppendAppends(out, ms.key, ms.value, ms.rest);
    }
  }

  lemma {:induction false} AppendNothing(out: Members)
    ensures Append(out, NoMembers) == out
  {
    if out.Member? { AppendNothing(out.rest); }
  }

  lemma {:induction false} PutAppends(out: Members, k: Text, v: Value)
    requires !Has(out, k)
    ensures Put(out, k, v) == Append(out, Member(k, v, NoMembers))
  {
    if out.Member? { PutAppends(out.rest, k, v); }
  }

  lemma {:induction false} HasPut(out: Members, k: Text, v: Value, k2: Text)
    ensures Has(Put(out, k, v), k2) <==> Has(out, k2) || k2 == k
  {
    if out.Member? { HasPut(out.rest, k, v, k2); }
  }

  lemma {:induction false} AppendAppends(out: Members, k: Text, v: Value, rest: Members)
    ensures Append(Append(out, Member(k, v, NoMembers)), rest) == Append(out, Member(k, v, rest))
  {
    if out.Member? { AppendAppends(out.rest, k, v, rest); }
  }

  // --------------------------------------------------- what redaction shows, place by place

  /** A place in a container. */
  datatype Place = At(i: nat) | Under(k: Text)

  function Nth(xs: Items, i: nat): Option<Value> {
    if xs.NoItems? then None else if i == 0 then Some(xs.head) else Nth(xs.tail, i - 1)
  }

  function Field(ms: Members, k: Text): Option<Value> {
    if ms.NoMembers? then None else if ms.key == k then Some(ms.value) else Field(ms.rest, k)
  }

  /** What is at a place of an output. */
  function ShownAt(v: Value, p: Place): Option<Value> {
    match p
    case At(i) => if v.Arr? then Nth(v.items, i) else None
    case Under(k) => if v.Obj? then Field(v.members, k) else None
  }

  /** The last of the first `room` fields with this name. */
  function Reached(ms: Members, room: nat, k: Text): Option<Value> {
    if room == 0 || ms.NoMembers? then None
    else
      var later := Reached(ms.rest, room - 1, k);
      if later.Some? then later else if ms.key == k then Some(ms.value) else None
  }

  function ItemsOf(v: Value): Items { match v case Arr(xs) => xs case SetOf(xs) => xs case _ => NoItems }

  function MembersOf(v: Value): Members { match v case Obj(ms) => ms case MapOf(ms) => ms case _ => NoMembers }

  predicate Container(v: Value) { v.Arr? || v.SetOf? || v.Obj? || v.MapOf? }

  /** What a container above the depth limit must show at a place. */
  function DueAt(denied: Denied, v: Value, depth: nat, p: Place): Option<Value> {
    match p
    case At(i) =>
      var n := Length(ItemsOf(v));
      if i < 32 then (match Nth(ItemsOf(v), i) case None => None case Some(u) => Some(Redacted(denied, u, depth + 1)))
      else if i == 32 && n > 32 then Some(Str(MoreText(n - 32)))
      else None
    case Under(k) =>
      if Count(MembersOf(v)) > 64 && k == [0x2026] then Some(Str(KEY_LIMIT))
      else
        match Reached(MembersOf(v), 64, k)
        case None => None
        case Some(u) => Some(if denied(k) then Str(REDACTED) else Redacted(denied, u, depth + 1))
  }

  lemma {:induction false} ItemsShown(denied: Denied, xs: Items, depth: nat, room: nat, i: nat)
    ensures Nth(RedactedItems(denied, xs, depth, room), i) ==
            if i < room then (match Nth(xs, i) case None => None case Some(u) => Some(Redacted(denied, u, depth)))
            else if i == room && Length(xs) > room then Some(Str(MoreText(Length(xs) - room)))
            else None
    decreases i, room
  {
    hide Redacted;
    if xs.Item? && room > 0 {
      if i > 0 { ItemsShown(denied, xs.tail, depth, room - 1, i - 1); }
    }
  }

  lemma {:induction false} FieldPut(out: Members, k: Text, v: Value, q: Text)
    ensures Field(Put(out, k, v), q) == if q == k then Some(v) else Field(out, q)
  {
    if out.Member? && out.key != k { FieldPut(out.rest, k, v, q); }
  }

  lemma {:induction false} MembersShown(denied: Denied, ms: Members, depth: nat, keys: nat, out: Members, q: Text)
    requires keys <= MAX_OBJECT_KEYS
    ensures Field(RedactedMembers(denied, ms, depth, keys, out), q) ==
            if keys + Count(ms) > MAX_OBJECT_KEYS && q == ELLIPSIS then Some(Str(KEY_LIMIT))
            else
              match Reached(ms, MAX_OBJECT_KEYS - keys, q)
              case None => Field(out, q)
              case Some(u) => Some(if denied(q) then Str(REDACTED) else Redacted(denied, u, depth))
    decreases MembersSize(ms)
  {
    hide Redacted, Put;
    if ms.Member? {
      if keys >= MAX_OBJECT_KEYS {
        FieldPut(out, ELLIPSIS, Str(KEY_LIMIT), q);
      } else {
        var v := if denied(ms.key) then Str(REDACTED) else Redacted(denied, ms.value, depth);
        MembersShown(denied, ms.rest, depth, keys + 1, Put(out, ms.key, v), q);
        FieldPut(out, ms.key, v, q);
      }
    }
  }

  /**
   * Redaction works place by place. Above the depth limit a container shows, at each of its first 32 elements and under
   * the name of each of its first 64 fields, the redaction of what was there; the mark under a denied name; after those
   * elements how many more there were; and that fields were left out. It shows nothing else. At the depth limit it
   * shows only that.
   */
  lemma ShownPlaceByPlace(denied: Denied, v: Value, depth: nat, p: Place)
    requires Container(v)
    ensures depth < 6 ==> ShownAt(Redacted(denied, v, depth), p) == DueAt(denied, v, depth, p)
    ensures depth >= 6 ==> Redacted(denied, v, depth) == Str(DEPTH_LIMIT)
  {
    hide RedactedItems, RedactedMembers, MoreText;
    match p
    case At(i) => ItemsShown(denied, ItemsOf(v), depth + 1, 32, i);
    case Under(k) => MembersShown(denied, MembersOf(v), depth + 1, 0, NoMembers, k);
  }

  /** Where a path of places leads, through neither a denied name nor a limit. */
  function Follow(denied: Denied, v: Value, path: seq<Place>): Option<Value>
    decreases |path|
  {
    if path == [] then Some(v)
    else
      var next := match path[0]
        case At(i) => if i < 32 then Nth(ItemsOf(v), i) else None
        case Under(k) =>
          if denied(k) || (Count(MembersOf(v)) > 64 && k == [0x2026]) then None else Reached(MembersOf(v), 64, k);
      if next.None? then None else Follow(denied, next.value, path[1..])
  }

  function FollowShown(v: Value, path: seq<Place>): Option<Value>
    decreases |path|
  {
    if path == [] then Some(v)
    else
      var next := ShownAt(v, path[0]);
      if next.None? then None else FollowShown(next.value, path[1..])
  }

  /** Whatever a path of at most six places reaches is shown there, redacted. */
  lemma {:induction false} ShownAlongPaths(denied: Denied, v: Value, depth: nat, path: seq<Place>)
    requires depth + |path| <= 6 && Follow(denied, v, path).Some?
    ensures FollowShown(Redacted(denied, v, depth), path)
         == Some(Redacted(denied, Follow(denied, v, path).value, depth + |path|))
    decreases |path|
  {
    hide Redacted, ShownAt, MoreText;
    if path != [] {
      var p := path[0];
      ShownPlaceByPlace(denied, v, depth, p);
      var next := DueAt(denied, v, depth, p);
      var u :| Some(u) == (if p.At? then Nth(ItemsOf(v), p.i) else Reached(MembersOf(v), 64, p.k));
      ShownAlongPaths(denied, u, depth + 1, path[1..]);
    }
  }

  /** What takes the place of a value with nothing inside. */
  lemma LeavesShown(denied: Denied, v: Value, depth: nat)
    requires !Container(v)
    ensures var r := Redacted(denied, v, depth);
      match v
      case Str(s) => r == Str(ScrubString(s))
      case BigInt(t) => r == Str(ScrubString(t))
      case Num(t) => if NoRun(t) then r == v else r == Str(REDACTED_NID)
      case Opaque => r == Str(REDACTED)
      case Binary(bytes) => r == Str(BinaryText(|bytes|))
      case Date(iso) => r == Str(iso)
      case Failure(name, message, stack) =>
        && r.Failure? && r.name == name && r.message == ScrubString(message)
        && r.stack == (if stack.None? || stack.value == [] then None else Some(ScrubString(stack.value)))
      case _ => r == v
  {
    hide RunAt, ScrubString;
    if v.Num? { RunIffHas(v.text); }
  }

  lemma RunIffHas(t: Text)
    ensures NoRun(t) <==> !HasRun(t)
  {
    if NoRun(t) { RunExcluded(t); } else if !HasRun(t) { RunOrNot(t); }
  }

  /** The digits a count is written in: its decimal numeral, without leading zeros. */
  lemma DecimalReads(n: nat)
    ensures var t := Decimal(n);
      && (forall i :: 0 <= i < |t| ==> 0x30 <= t[i] <= 0x39)
      && (|t| > 1 ==> t[0] != 0x30)
      && Radix.Value(10, seq(|t|, i requires 0 <= i < |t| && t[i] >= 0x30 => t[i] - 0x30)) == n
  {
    var t, ds := Decimal(n), Radix.Minimal(10, n);
    Radix.ValueOfMinimal(10, n);
    assert seq(|t|, i requires 0 <= i < |t| && t[i] >= 0x30 => t[i] - 0x30) == ds;
  }

  // ------------------------------------------------------------------- the walk

  /** `redactInner` on a tree: the object loop fills `out` and counts keys. */
  method RedactInner(denied: Denied, v: Value, depth: nat) returns (r: Value)
    ensures r == Redacted(denied, v, depth)
    decreases Size(v), 1
  {
    match v {
      case Null => return v;
      case Undefined => return v;
      case Bool(_) => return v;
      case Str(s) => return Str(ScrubString(s));
      case Num(t) => return if HasRun(t) then Str(REDACTED_NID) else v;
      case BigInt(t) => return Str(ScrubString(t));
      case Opaque => return Str(REDACTED);
      case Binary(bytes) => return Str(BinaryText(|bytes|));
      case Date(iso) => return Str(iso);
      case Failure(name, message, stack) =>
        return Failure(name, ScrubString(message),
                       if stack.Some? && stack.value != [] then Some(ScrubString(stack.value)) else None);
      case Arr(xs) =>
        if depth >= MAX_DEPTH { return Str(DEPTH_LIMIT); }
        var items := RedactItems(denied, xs, depth + 1, MAX_ARRAY_ITEMS);
        return Arr(items);
      case SetOf(xs) =>
        if depth >= MAX_DEPTH { return Str(DEPTH_LIMIT); }
        var items := RedactItems(denied, xs, depth + 1, MAX_ARRAY_ITEMS);
        return Arr(items);
      case Obj(ms) =>
        if depth >= MAX_DEPTH { return Str(DEPTH_LIMIT); }
        var out := RedactMembers(denied, ms, depth + 1);
        return Obj(out);
      case MapOf(ms) =>
        if depth >= MAX_DEPTH { return Str(DEPTH_LIMIT); }
        var out := RedactMembers(denied, ms, depth + 1);
        return Obj(out);
    }
  }

  method RedactItems(denied: Denied, xs: Items, depth: nat, room: nat) returns (r: Items)
    ensures r == RedactedItems(denied, xs, depth, room)
    decreases ItemsSize(xs), 2
  {
    if xs.NoItems? { return NoItems; }
    if room == 0 { return Item(Str(MoreText(Length(xs))), NoItems); }
    var head := RedactInner(denied, xs.head, depth);
    var tail := RedactItems(denied, xs.tail, depth, room - 1);
    return Item(head, tail);
  }

  method RedactMembers(denied: Denied, ms: Members, depth: nat) returns (out: Members)
    ensures out == RedactedMembers(denied, ms, depth, 0, NoMembers)
    decreases MembersSize(ms), 2
  {
    out := NoMembers;
    var rest, keys := ms, 0;
    while rest.Member?
      invariant MembersSize(rest) <= MembersSize(ms)
      invariant RedactedMembers(denied, rest, depth, keys, out) == RedactedMembers(denied, ms, depth, 0, NoMembers)
      decreases MembersSize(rest)
    {
      if keys >= MAX_OBJECT_KEYS {
        out := Put(out, ELLIPSIS, Str(KEY_LIMIT));
        return;
      }
      keys := keys + 1;
      var v := Str(REDACTED);
      if !denied(rest.key) { v := RedactInner(denied, rest.value, depth); }
      out := Put(out, rest.key, v);
      rest := rest.rest;
    }
  }
}
