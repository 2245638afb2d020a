/**
 * The expression-only parts of the web client, frontend/src/App.jsx: `classNames`, the list
 * reducers run on 'created', 'accepted' and 'cancelled' events, the per-item status predicates and
 * the guard of `handleIngest`.
 */
module Client {
  import opened Items
  import opened Handlers

  // ----- classNames (App.jsx:5-7) -----

  /** `classes.filter(Boolean)`: for strings, dropping the empty ones. */
  function NonEmpty(args: seq<string>): (r: seq<string>)
    ensures |r| <= |args|
    ensures forall j :: 0 <= j < |r| ==> r[j] != ""
    ensures r == [] <==> forall j :: 0 <= j < |args| ==> args[j] == ""
    ensures multiset(r) == multiset(args)["" := 0]
  {
    if args == [] then []
    else
      assert args == [args[0]] + args[1..];
      (if args[0] == "" then [] else [args[0]]) + NonEmpty(args[1..])
  }

  /** `parts.join(sep)` */
  function Join(parts: seq<string>, sep: string): string
  {
    if parts == [] then ""
    else if |parts| == 1 then parts[0]
    else parts[0] + sep + Join(parts[1..], sep)
  }

  /** `classNames(...classes)` */
  function ClassNames(args: seq<string>): (r: string)
    ensures r == "" <==> forall j :: 0 <= j < |args| ==> args[j] == ""
  {
    var parts := NonEmpty(args);
    assert parts != [] ==> parts[0] != "" && Join(parts, " ") != "";
    Join(parts, " ")
  }

  /** ASCII whitespace, which separates the tokens of an HTML class attribute. */
  predicate IsAsciiWhite(c: char)
  {
    c == ' ' || c == '\t' || c == '\n' || c == '\U{C}' || c == '\r'
  }

  /** The longest prefix of `s` without whitespace. */
  function Word(s: string): (w: string)
    ensures |w| <= |s| && w == s[..|w|]
    ensures s != [] && !IsAsciiWhite(s[0]) ==> |w| > 0
  {
    if s == [] || IsAsciiWhite(s[0]) then "" else [s[0]] + Word(s[1..])
  }

  /** The class names an HTML class attribute with value `s` lists, in order. */
  function Tokens(s: string): seq<string>
    decreases |s|
  {
    if s == [] then []
    else if IsAsciiWhite(s[0]) then Tokens(s[1..])
    else
      var w := Word(s);
      [w] + Tokens(s[|w|..])
  }

  /** The class names of each argument, one argument after the other. */
  function AllTokens(args: seq<string>): seq<string>
  {
    if args == [] then [] else Tokens(args[0]) + AllTokens(args[1..])
  }

  lemma {:induction false} WordStopsAtWhite(a: string, t: string)
    requires t != [] && IsAsciiWhite(t[0])
    ensures Word(a + t) == Word(a)
  {
    if a != [] {
      assert (a + t)[1..] == a[1..] + t;
      WordStopsAtWhite(a[1..], t);
    }
  }

  /** One space between two strings separates their class names. */
  lemma {:induction false} TokensOfSpaced(a: string, b: string)
    ensures Tokens(a + " " + b) == Tokens(a) + Tokens(b)
    decreases |a|
  {
    var s := a + " " + b;
    if a == [] {
      assert s[1..] == b;
    } else if IsAsciiWhite(a[0]) {
      assert s[1..] == a[1..] + " " + b;
      TokensOfSpaced(a[1..], b);
    } else {
      WordStopsAtWhite(a, " " + b);
      assert s == a + (" " + b);
      var w := Word(a);
      assert s[|w|..] == a[|w|..] + " " + b;
      TokensOfSpaced(a[|w|..], b);
    }
  }

  lemma {:induction false} TokensOfJoin(parts: seq<string>)
    ensures Tokens(Join(parts, " ")) == AllTokens(parts)
  {
    if |parts| > 1 {
      TokensOfJoin(parts[1..]);
      TokensOfSpaced(parts[0], Join(parts[1..], " "));
    } else if |parts| == 1 {
      assert parts[1..] == [];
    }
  }

  lemma {:induction false} AllTokensNonEmpty(args: seq<string>)
    ensures AllTokens(NonEmpty(args)) == AllTokens(args)
  {
    if args != [] {
      AllTokensNonEmpty(args[1..]);
      var rest := NonEmpty(args[1..]);
      if args[0] == "" {
        assert NonEmpty(args) == rest;
      } else {
        assert NonEmpty(args) == [args[0]] + rest;
        assert ([args[0]] + rest)[1..] == rest;
      }
    }
  }

  /**
   * The element gets exactly the class names of the arguments, in argument order: empty arguments
   * contribute nothing and one space never merges or splits a name.
   */
  lemma ClassNamesTokens(args: seq<string>)
    ensures Tokens(ClassNames(args)) == AllTokens(args)
  {
    TokensOfJoin(NonEmpty(args));
    AllTokensNonEmpty(args);
  }

  // ----- the list reducers (App.jsx:35, 39, 43) -----

  /** On 'created': `[msg, ...prev]`. */
  function OnCreated(prev: seq<Item>, msg: Item): (next: seq<Item>)
    ensures |next| == |prev| + 1 && next[0] == msg && next[1..] == prev
  {
    [msg] + prev
  }

  /** On 'accepted': `prev.map(x => x.id === id ? { ...x, status: 'accepted' } : x)`. */
  function OnAccepted(prev: seq<Item>, id: string): (next: seq<Item>)
    ensures |next| == |prev|
    ensures forall j :: 0 <= j < |prev| ==> next[j] == prev[j].(status := next[j].status)
    ensures forall j :: 0 <= j < |prev| ==>
      next[j].status == if prev[j].id == id then Accepted else prev[j].status
    ensures FreshId(prev, id) ==> next == prev
  {
    seq(|prev|, j requires 0 <= j < |prev| => if prev[j].id == id then prev[j].(status := Accepted) else prev[j])
  }

  /** On 'cancelled': `prev.map(x => x.id === id ? { ...x, status: 'cancelled' } : x)`. */
  function OnCancelled(prev: seq<Item>, id: string): (next: seq<Item>)
    ensures |next| == |prev|
    ensures forall j :: 0 <= j < |prev| ==> next[j] == prev[j].(status := next[j].status)
    ensures forall j :: 0 <= j < |prev| ==>
      next[j].status == if prev[j].id == id then Cancelled else prev[j].status
    ensures FreshId(prev, id) ==> next == prev
  {
    seq(|prev|, j requires 0 <= j < |prev| => if prev[j].id == id then prev[j].(status := Cancelled) else prev[j])
  }

  /** A repeated 'accepted' or 'cancelled' event changes nothing more. */
  lemma ReducersIdempotent(prev: seq<Item>, id: string)
    ensures OnAccepted(OnAccepted(prev, id), id) == OnAccepted(prev, id)
    ensures OnCancelled(OnCancelled(prev, id), id) == OnCancelled(prev, id)
  {
  }

  // ----- per-item predicates (App.jsx:76, 91, 101) -----

  /** `m.status === 'accepted' || m.status === 'cancelled'` */
  function IsDone(m: Item): (done: bool)
    ensures done <==> m.status != Pending
  {
    m.status == Accepted || m.status == Cancelled
  }

  /** The accept button's `disabled`. */
  function AcceptDisabled(m: Item): (disabled: bool)
    ensures disabled ==> IsDone(m)
    ensures m.status == Cancelled ==> !disabled
  {
    m.status == Accepted
  }

  /** The cancel button's `disabled`. */
  function CancelDisabled(m: Item): (disabled: bool)
    ensures disabled ==> IsDone(m)
    ensures m.status == Accepted ==> !disabled
  {
    m.status == Cancelled
  }

  /** An item is done exactly when one of its two buttons is disabled, and never both are. */
  lemma DoneIsOneDisabled(m: Item)
    ensures IsDone(m) <==> AcceptDisabled(m) || CancelDisabled(m)
    ensures !(AcceptDisabled(m) && CancelDisabled(m))
  {
  }

  // ----- handleIngest's guard (App.jsx:50-51) -----

  /**
   * What `String.prototype.trim` strips: the ECMAScript WhiteSpace code points (TAB, VT, FF,
   * SPACE, NBSP, ZWNBSP and the Zs category) and LineTerminator code points (LF, CR, LS, PS).
   */
  predicate IsWhite(c: char)
  {
    || c == '\t' || c == '\U{B}' || c == '\U{C}' || c == ' ' || c == '\U{A0}' || c == '\U{FEFF}'
    || c == '\U{1680}' || ('\U{2000}' <= c <= '\U{200A}') || c == '\U{202F}' || c == '\U{205F}'
    || c == '\U{3000}'
    || c == '\n' || c == '\r' || c == '\U{2028}' || c == '\U{2029}'
  }

  function TrimStart(s: string): (r: string)
    ensures |r| <= |s| && r == s[|s| - |r|..]
    ensures forall j :: 0 <= j < |s| - |r| ==> IsWhite(s[j])
    ensures r != [] ==> !IsWhite(r[0])
  {
    if s != [] && IsWhite(s[0]) then TrimStart(s[1..]) else s
  }

  function TrimEnd(s: string): (r: string)
    ensures |r| <= |s| && r == s[..|r|]
    ensures forall j :: |r| <= j < |s| ==> IsWhite(s[j])
    ensures r != [] ==> !IsWhite(r[|r| - 1])
  {
    if s != [] && IsWhite(s[|s| - 1]) then TrimEnd(s[..|s| - 1]) else s
  }

  /** `s.trim()`: `s` with the whitespace at both ends removed, and nothing else. */
  function Trim(s: string): (r: string)
    ensures var k := |s| - |TrimStart(s)|;
      && k + |r| <= |s| && r == s[k..k + |r|]
      && (forall j :: 0 <= j < k ==> IsWhite(s[j]))
      && (forall j :: k + |r| <= j < |s| ==> IsWhite(s[j]))
    ensures r != [] ==> !IsWhite(r[0]) && !IsWhite(r[|r| - 1])
    ensures r == [] <==> forall j :: 0 <= j < |s| ==> IsWhite(s[j])
  {
    TrimEnd(TrimStart(s))
  }

  /**
   * `handleIngest`: nothing is sent when the trimmed input is empty; otherwise the trimmed input is
   * sent as `text`, and the server's check at backend/src/server.js:61 lets it through.
   */
  function IngestText(input: string): (sent: Option<string>)
    ensures sent.None? <==> forall j :: 0 <= j < |input| ==> IsWhite(input[j])
    ensures sent.Some? ==> sent.value == Trim(input) && ValidText(Str(sent.value))
  {
    var t := Trim(input);
    if t == "" then None else Some(t)
  }
}
