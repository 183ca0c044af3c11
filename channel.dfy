/** A channel's entry in the channel list (`ChannelItem`): the label it
    derives from the channel's path, the `active` class of its button, and
    the events its buttons dispatch. */
module Channel {
  import opened Wrappers
  import opened JsString
  import Protocol

  // ---------------------------------------------------------------------
  // JSON quoting of a path

  /** Characters `JSON.stringify` writes as themselves. */
  predicate Plain(c: char)
  {
    c != '"' && c != '\\' && c as int >= 0x20
  }

  function HexDigit(d: nat): (c: char)
    requires d < 16
    ensures c != '/'
  {
    "0123456789abcdef"[d]
  }

  /** How `JSON.stringify` writes one character inside a string literal:
      quote and backslash escaped, the short escapes for backspace, form
      feed, newline, carriage return and tab, other control characters as
      `\u00XX`, everything else unchanged. */
  function EscapeChar(c: char): (r: string)
    ensures Plain(c) ==> r == [c]
    ensures !Plain(c) ==> |r| >= 2 && r[0] == '\\'
    ensures '/' in r <==> c == '/'
  {
    if c == '"' then "\\\""
    else if c == '\\' then "\\\\"
    else if c as int == 0x08 then "\\b"
    else if c as int == 0x0C then "\\f"
    else if c as int == 0x0A then "\\n"
    else if c as int == 0x0D then "\\r"
    else if c as int == 0x09 then "\\t"
    else if c as int < 0x20 then "\\u00" + [HexDigit(c as int / 16), HexDigit(c as int % 16)]
    else [c]
  }

  /** The escaped contents of a string literal. */
  function Escape(s: string): (r: string)
    ensures |r| >= |s|
    decreases |s|
  {
    if s == [] then [] else EscapeChar(s[0]) + Escape(s[1..])
  }

  /** `JSON.stringify` of a string. */
  function Quote(s: string): (q: string)
    ensures |q| >= |s| + 2 && q[0] == '"' && q[|q| - 1] == '"'
  {
    "\"" + Escape(s) + "\""
  }

  /** Escaping works character by character. */
  lemma {:induction false} EscapeAppend(a: string, b: string)
    ensures Escape(a + b) == Escape(a) + Escape(b)
    decreases |a|
  {
    if a != [] {
      assert (a + b)[0] == a[0] && (a + b)[1..] == a[1..] + b;
      EscapeAppend(a[1..], b);
    } else {
      assert a + b == b;
    }
  }

  /** Escaping introduces no `/` and keeps every `/`. */
  lemma {:induction false} EscapeSlashFree(s: string)
    ensures '/' in Escape(s) <==> '/' in s
    decreases |s|
  {
    if s != [] {
      EscapeSlashFree(s[1..]);
      assert s == [s[0]] + s[1..];
    }
  }

  /** A string of plain characters is its own escape. */
  lemma {:induction false} EscapePlain(s: string)
    requires forall i :: 0 <= i < |s| ==> Plain(s[i])
    ensures Escape(s) == s
    decreases |s|
  {
    if s != [] {
      EscapePlain(s[1..]);
      assert s == [s[0]] + s[1..];
    }
  }

  // ---------------------------------------------------------------------
  // The label

  /** `name.replace(/^"\/|"$|^\//g, "")`: at the start the alternatives are
      tried in order (a quote followed by a slash, a lone quote that is the
      whole string, a slash); after that only a closing quote at the very end
      can match. */
  function StripLabel(s: string): (r: string)
    ensures |r| <= |s|
  {
    var start := if |s| >= 2 && s[0] == '"' && s[1] == '/' then 2
                 else if |s| >= 1 && s[0] == '/' then 1
                 else 0;
    var end := if |s| - 1 >= start && s[|s| - 1] == '"' then |s| - 1 else |s|;
    s[start..end]
  }

  /** On a segment without `/` the pattern only drops a closing quote. */
  lemma StripSlashFree(s: string)
    requires '/' !in s
    ensures StripLabel(s) == if |s| > 0 && s[|s| - 1] == '"' then s[..|s| - 1] else s
  {
    if |s| >= 2 {
      assert s[1] in s;
    }
    if |s| >= 1 {
      assert s[0] in s;
    }
  }

  /** The label `display()` shows for a channel at `path` (`None` when the
      item has no data): the path is JSON-quoted, split on `/`, and the last
      segment stripped. Without data, `JSON.stringify` yields `undefined`
      and splitting it throws. */
  function ChannelLabel(path: Option<string>): (r: Result<string>)
    ensures r.Failure? <==> path.None?
    ensures r.Failure? ==> r.error == Error(Protocol.TypeErrorMessage)
  {
    match path
    case None => Failure(Error(Protocol.TypeErrorMessage))
    case Some(p) =>
      var parts := Split(Quote(p), "/");
      Success(StripLabel(parts[|parts| - 1]))
  }

  /** The label of a nested path is the escaped last segment: the closing
      quote of the JSON string is stripped. */
  lemma NestedLabel(prefix: string, name: string)
    requires '/' !in name
    ensures ChannelLabel(Some(prefix + "/" + name)) == Success(Escape(name))
  {
    var path := prefix + "/" + name;
    var x, y := "\"" + Escape(prefix), Escape(name) + "\"";
    EscapeAroundSlash(prefix, name);
    QuoteParts(path, Escape(prefix), Escape(name));
    EscapeSlashFree(name);
    LabelOfLastSegment(path, x, y);
    assert y[..|y| - 1] == Escape(name);
  }

  /** The label of a path whose JSON string ends in a `/`-free segment. */
  lemma LabelOfLastSegment(path: string, x: string, y: string)
    requires Quote(path) == x + ['/'] + y && '/' !in y && |y| > 0 && y[|y| - 1] == '"'
    ensures ChannelLabel(Some(path)) == Success(y[..|y| - 1])
  {
    SplitLast(x, '/', y);
    var parts := Split(Quote(path), "/");
    assert parts[|parts| - 1] == y;
    StripSlashFree(y);
  }

  lemma QuoteParts(s: string, a: string, b: string)
    requires Escape(s) == a + "/" + b
    ensures Quote(s) == ("\"" + a) + ['/'] + (b + "\"")
  {
  }

  lemma EscapeAroundSlash(prefix: string, name: string)
    ensures Escape(prefix + "/" + name) == Escape(prefix) + "/" + Escape(name)
  {
    EscapeAppend(prefix + "/", name);
    EscapeAppend(prefix, "/");
    EscapeSlash();
  }

  lemma EscapeSlash()
    ensures Escape("/") == "/"
  {
    assert "/"[1..] == [];
  }

  /** A path with no `/` keeps the opening quote of its JSON string. */
  lemma SlashlessLabel(name: string)
    requires '/' !in name
    ensures ChannelLabel(Some(name)) == Success("\"" + Escape(name))
  {
    var q := Quote(name);
    EscapeSlashFree(name);
    assert '/' !in q;
    IndexOfChar(q, '/');
    SplitAbsent(q, "/");
    StripSlashFree(q);
    assert q[..|q| - 1] == "\"" + Escape(name);
  }

  /** The channel `c` of workspace `ws` is labelled `c`. */
  lemma WorkspaceChannelLabel()
    ensures ChannelLabel(Some("/ws/channels/c")) == Success("c")
  {
    assert "/ws/channels/c" == "/ws/channels" + "/" + "c";
    NestedLabel("/ws/channels", "c");
    EscapePlain("c");
  }

  // ---------------------------------------------------------------------
  // The item

  /** The channel record an item displays (`ViewChannel`). */
  datatype ChannelView = ChannelView(path: string, metadata: string, doc: string)

  /** The events an item dispatches: open and delete, each carrying the
      item's path (`None` when the item has no data). */
  datatype ChannelEvent = OpenChannelEvent(name: Option<string>) | DeleteChannelEvent(id: Option<string>)

  /** The button's classes with `active` added, nothing else changed. */
  function Activated(classes: set<string>): (r: set<string>)
    ensures "active" in r
    ensures forall x :: x != "active" ==> (x in r <==> x in classes)
  {
    classes + {"active"}
  }

  /** The button's classes with `active` removed, nothing else changed. */
  function Deactivated(classes: set<string>): (r: set<string>)
    ensures "active" !in r
    ensures forall x :: x != "active" ==> (x in r <==> x in classes)
  {
    classes - {"active"}
  }

  /** Activating twice is activating once; deactivating after activating
      leaves no `active`, and restores a set that had none. */
  lemma ActiveStateToggles(classes: set<string>)
    ensures Activated(Activated(classes)) == Activated(classes)
    ensures Deactivated(Activated(classes)) == Deactivated(classes)
    ensures "active" !in classes ==> Deactivated(Activated(classes)) == classes
  {
  }

  class ChannelItem {
    /** The channel shown, once set. */
    var data: Option<ChannelView>
    /** The class list of the item's button. */
    var buttonClasses: set<string>
    /** Whether the item has removed itself from the page. */
    var removed: bool

    constructor()
      ensures data == None && buttonClasses == {} && !removed
    {
      data := None;
      buttonClasses := {};
      removed := false;
    }

    /** `this._data?.path`. */
    function Path(): Option<string>
      reads this
    {
      if data.Some? then Some(data.value.path) else None
    }

    method SetData(d: ChannelView)
      modifies this`data
      ensures data == Some(d)
    {
      data := Some(d);
    }

    method ActiveState()
      modifies this`buttonClasses
      ensures buttonClasses == Activated(old(buttonClasses))
    {
      buttonClasses := buttonClasses + {"active"};
    }

    method DeactivateState()
      modifies this`buttonClasses
      ensures buttonClasses == Deactivated(old(buttonClasses))
    {
      buttonClasses := buttonClasses - {"active"};
    }

    /** The open button: an open event for this channel, then the item is
        marked active. */
    method OpenClick() returns (e: ChannelEvent)
      modifies this`buttonClasses
      ensures e == OpenChannelEvent(Path())
      ensures buttonClasses == Activated(old(buttonClasses))
    {
      e := OpenChannelEvent(Path());
      ActiveState();
    }

    /** The delete button: a delete event for this channel. */
    method DeleteClick() returns (e: ChannelEvent)
      ensures e == DeleteChannelEvent(Path())
      ensures e.DeleteChannelEvent? && (e.id.Some? <==> data.Some?)
    {
      e := DeleteChannelEvent(Path());
    }

    /** The `channelDeleted` listener: the item removes itself when the
        deleted id is its own path (an item without data matches an event
        without id). */
    method ChannelDeleted(id: Option<string>)
      modifies this`removed
      ensures removed == (old(removed) || Path() == id)
    {
      if Path() == id {
        removed := true;
      }
    }

    /** The label `display()` puts on the item. */
    method Display() returns (shown: Result<string>)
      ensures shown == ChannelLabel(Path())
      ensures shown.Failure? <==> data.None?
    {
      shown := ChannelLabel(Path());
    }
  }
}
