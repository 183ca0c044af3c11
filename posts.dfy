/** A post's view (`PostItem`): the reaction counts and buttons it shows,
    and the reply composer with its formatting buttons and send keys. */
module Posts {
  import opened Wrappers
  import opened Types
  import opened JsString
  import Markup

  // ---------------------------------------------------------------------
  // Reaction counts and pressed flags

  /** The array of users who reacted with `k`, when the post, its reactions
      object and that kind's array are all there. */
  function ReactionArray(data: Option<PostView>, k: Kind): Option<seq<string>>
  {
    if data.Some? && data.value.doc.reactions.Present? && k in data.value.doc.reactions.value
    then Some(data.value.doc.reactions.value[k])
    else None
  }

  /** The count a reaction button shows: the length of that kind's array, or
      0 when the array or the whole reactions object is missing. */
  function ReactionCount(data: Option<PostView>, k: Kind): (n: nat)
    ensures ReactionArray(data, k).Some? ==> n == |ReactionArray(data, k).value|
    ensures ReactionArray(data, k).None? ==> n == 0
  {
    if data.Some? && data.value.doc.reactions.Present? then
      var reactions := data.value.doc.reactions.value;
      if k in reactions then |reactions[k]| else 0
    else 0
  }

  /** The counts of all four buttons. */
  function Counts(data: Option<PostView>): map<Kind, nat>
  {
    map[Smile := ReactionCount(data, Smile), Frown := ReactionCount(data, Frown),
        Like := ReactionCount(data, Like), Celebrate := ReactionCount(data, Celebrate)]
  }

  /** The name a viewer is looked up and recorded under: a missing or empty
      username becomes `""`. */
  function Viewer(username: Option<string>): (name: string)
    ensures name == "" <==> username.None? || username.value == ""
    ensures name != "" ==> name == username.value
  {
    if username.Some? && username.value != "" then username.value else ""
  }

  /** A button starts pressed exactly when the viewer is in its array. */
  predicate StartsPressed(data: Option<PostView>, username: Option<string>, k: Kind)
  {
    ReactionArray(data, k).Some? && Viewer(username) in ReactionArray(data, k).value
  }

  /** The kinds whose buttons start pressed. */
  function InitialPressed(data: Option<PostView>, username: Option<string>): set<Kind>
  {
    (if StartsPressed(data, username, Smile) then {Smile} else {})
      + (if StartsPressed(data, username, Frown) then {Frown} else {})
      + (if StartsPressed(data, username, Like) then {Like} else {})
      + (if StartsPressed(data, username, Celebrate) then {Celebrate} else {})
  }

  /** Every button shows its kind's count. */
  lemma CountsShown(data: Option<PostView>, k: Kind)
    ensures k in Counts(data) && Counts(data)[k] == ReactionCount(data, k)
  {
    match k
    case Smile =>
    case Frown =>
    case Like =>
    case Celebrate =>
  }

  /** A button starts pressed exactly when the viewer is in its kind's array. */
  lemma PressedIsMembership(data: Option<PostView>, username: Option<string>, k: Kind)
    ensures k in InitialPressed(data, username) <==> StartsPressed(data, username, k)
  {
    match k
    case Smile =>
    case Frown =>
    case Like =>
    case Celebrate =>
  }

  // ---------------------------------------------------------------------
  // Reaction clicks

  /** The patch operation a reaction click asks for. */
  datatype ArrayOp = ArrayAdd | ArrayRemove

  /** The name of an operation in a patch body. */
  function OpName(op: ArrayOp): string
  {
    match op
    case ArrayAdd => "ArrayAdd"
    case ArrayRemove => "ArrayRemove"
  }

  /** The `patchEvent` a reaction click dispatches; `post` is the extra field
      only the like button sends. */
  datatype PatchEvent = PatchEvent(op: ArrayOp, reaction: Kind, user: Option<string>,
                                   path: Option<string>, post: Option<string>)

  /** A click on a pressed button removes the reaction, on any other adds it. */
  function ClickOp(pressed: bool): (op: ArrayOp)
    ensures op == ArrayRemove <==> pressed
    ensures op == ArrayAdd <==> !pressed
  {
    if pressed then ArrayRemove else ArrayAdd
  }

  /** The user a click reports: the smile and like buttons fall back to
      `" temp"` for a missing or empty username, the frown and celebrate
      buttons send the username as it is. */
  function EventUser(k: Kind, username: Option<string>): (user: Option<string>)
    ensures (k == Smile || k == Like) ==> user.Some? && user.value != ""
    ensures (k == Smile || k == Like) ==>
      user == Some(if Viewer(username) != "" then Viewer(username) else " temp")
    ensures (k == Frown || k == Celebrate) ==> user == username
  {
    match k
    case Smile => Some(if username.Some? && username.value != "" then username.value else " temp")
    case Like => Some(if username.Some? && username.value != "" then username.value else " temp")
    case Frown => username
    case Celebrate => username
  }

  /** The event a click on button `k` dispatches. */
  function ClickEvent(data: Option<PostView>, username: Option<string>, k: Kind, pressed: bool): (e: PatchEvent)
    ensures e.reaction == k && e.op == ClickOp(pressed)
    ensures e.path == (if data.Some? then Some(data.value.path) else None)
    ensures e.post.Some? <==> k == Like
  {
    PatchEvent(ClickOp(pressed), k, EventUser(k, username),
               if data.Some? then Some(data.value.path) else None,
               if k == Like then Some("idk") else None)
  }

  /** The post after a click on button `k`: the viewer is appended to that
      kind's array whenever it exists, whichever operation was chosen. */
  function Pushed(data: Option<PostView>, username: Option<string>, k: Kind): (after: Option<PostView>)
    ensures after.Some? <==> data.Some?
    ensures forall j :: ReactionArray(after, j).Some? <==> ReactionArray(data, j).Some?
    ensures ReactionArray(data, k).Some? ==>
      ReactionArray(after, k).value == ReactionArray(data, k).value + [Viewer(username)]
    ensures forall j :: j != k ==> ReactionArray(after, j) == ReactionArray(data, j)
    ensures data.Some? ==> after.value.path == data.value.path && after.value.doc.msg == data.value.doc.msg
    ensures ReactionArray(data, k).None? ==> after == data
    ensures data.Some? ==> after.value == data.value.(doc := data.value.doc.(reactions := after.value.doc.reactions))
  {
    if ReactionArray(data, k).Some? then
      var post := data.value;
      var reactions := post.doc.reactions.value;
      Some(post.(doc := post.doc.(reactions := Present(reactions[k := reactions[k] + [Viewer(username)]]))))
    else data
  }

  /** On the smile and like buttons the name appended to the local array and
      the name sent with the event agree exactly when the viewer has a name:
      an anonymous viewer is recorded as `""` but sent as `" temp"`. */
  lemma RecordedVersusSent(data: Option<PostView>, username: Option<string>, k: Kind)
    requires k == Smile || k == Like
    requires ReactionArray(data, k).Some?
    ensures var a := ReactionArray(Pushed(data, username, k), k).value;
      |a| > 0 && (EventUser(k, username) == Some(a[|a| - 1]) <==> Viewer(username) != "")
    ensures var a := ReactionArray(Pushed(data, username, k), k).value;
      Viewer(username) == "" ==> a[|a| - 1] == "" && EventUser(k, username) == Some(" temp")
  {
    var b := ReactionArray(data, k).value;
    assert (b + [Viewer(username)])[|b|] == Viewer(username);
  }

  /** The array of the clicked kind never shrinks: a click that removes the
      reaction grows it by one just as a click that adds it does. */
  lemma ClickNeverShrinks(data: Option<PostView>, username: Option<string>, k: Kind)
    ensures ReactionArray(data, k).Some? ==>
      ReactionCount(Pushed(data, username, k), k) == ReactionCount(data, k) + 1
    ensures ReactionArray(data, k).None? ==>
      ReactionCount(Pushed(data, username, k), k) == 0
    ensures forall j :: j != k ==> ReactionCount(Pushed(data, username, k), j) == ReactionCount(data, j)
  {
  }

  /** After any click the viewer is in the clicked kind's array, so the next
      display shows the button pressed even when the click removed the
      reaction. */
  lemma RedisplayAfterClick(data: Option<PostView>, username: Option<string>, k: Kind)
    requires ReactionArray(data, k).Some?
    ensures StartsPressed(Pushed(data, username, k), username, k)
    ensures forall j :: j != k ==>
      (StartsPressed(Pushed(data, username, k), username, j) <==> StartsPressed(data, username, j))
  {
    var a := ReactionArray(data, k).value;
    assert (a + [Viewer(username)])[|a|] == Viewer(username);
  }

  /** The pressed set after a click on `k`: that flag flips, the others stay. */
  function Toggled(pressed: set<Kind>, k: Kind): (after: set<Kind>)
    ensures k in after <==> k !in pressed
    ensures forall j :: j != k ==> (j in after <==> j in pressed)
  {
    if k in pressed then pressed - {k} else pressed + {k}
  }

  /** Two clicks on the same button restore its flag and send opposite
      operations, while its array has grown by two. */
  lemma TwoClicks(data: Option<PostView>, username: Option<string>, pressed: set<Kind>, k: Kind)
    requires ReactionArray(data, k).Some?
    ensures Toggled(Toggled(pressed, k), k) == pressed
    ensures ClickOp(k in pressed) != ClickOp(k in Toggled(pressed, k))
    ensures ReactionCount(Pushed(Pushed(data, username, k), username, k), k) == ReactionCount(data, k) + 2
  {
    ClickNeverShrinks(data, username, k);
    ClickNeverShrinks(Pushed(data, username, k), username, k);
  }

  /** The `replytoPost` event of the reply button. */
  datatype ReplyEvent = ReplyEvent(id: Option<string>)

  /** The message a post's view shows (`this._data?.doc.msg`). */
  function Message(data: Option<PostView>): Option<string>
  {
    if data.Some? then data.value.doc.msg else None
  }

  /** The view of one post: its data, its viewer, and the counts and
      pressed buttons `display()` last showed. */
  class PostItem {
    var data: Option<PostView>
    var username: Option<string>
    var counts: map<Kind, nat>
    var pressed: set<Kind>

    constructor()
      ensures data == None && username == None
      ensures counts == map[] && pressed == {}
    {
      data := None;
      username := None;
      counts := map[];
      pressed := {};
    }

    method SetUsername(u: Option<string>)
      modifies this`username
      ensures username == u
    {
      username := u;
    }

    method SetData(d: PostView)
      modifies this`data
      ensures data == Some(d)
    {
      data := Some(d);
    }

    /** The reaction part of `display()`: one count per kind and the
        buttons pressed for the viewer's reactions. */
    method Display()
      modifies this`counts, this`pressed
      ensures counts == Counts(data)
      ensures pressed == InitialPressed(data, username)
      ensures forall k :: k in counts && counts[k] == ReactionCount(data, k)
      ensures forall k :: k in pressed <==> StartsPressed(data, username, k)
    {
      counts := Counts(data);
      pressed := InitialPressed(data, username);
      forall k: Kind ensures k in counts && counts[k] == ReactionCount(data, k) {
        CountsShown(data, k);
      }
      forall k: Kind ensures k in pressed <==> StartsPressed(data, username, k) {
        PressedIsMembership(data, username, k);
      }
    }

    /** The message paragraph of `display()`: the markup passes on the post's
        message (`None` when the link loop does not end within `fuel` turns). */
    method ShowMessage(fuel: nat) returns (html: Option<string>)
      ensures html == Markup.Markup(Message(data), fuel)
    {
      html := Markup.RenderMessage(Message(data), fuel);
    }

    /** A click on reaction button `k`: choose the operation from the flag,
        append the viewer to the kind's array (on both branches), flip the
        flag, and report the event. */
    method Click(k: Kind) returns (e: PatchEvent)
      modifies this`data, this`pressed
      ensures e == ClickEvent(old(data), username, k, k in old(pressed))
      ensures data == Pushed(old(data), username, k)
      ensures pressed == Toggled(old(pressed), k)
    {
      var op: ArrayOp;
      if k in pressed {
        data := Pushed(data, username, k);
        op := ArrayRemove;
      } else {
        data := Pushed(data, username, k);
        op := ArrayAdd;
      }
      pressed := Toggled(pressed, k);
      e := PatchEvent(op, k, EventUser(k, username),
                      if data.Some? then Some(data.value.path) else None,
                      if k == Like then Some("idk") else None);
    }

    /** The reply button names this post. */
    method ReplyClick() returns (e: ReplyEvent)
      ensures e.id == (if data.Some? then Some(data.value.path) else None)
    {
      e := ReplyEvent(if data.Some? then Some(data.value.path) else None);
    }
  }

  // ---------------------------------------------------------------------
  // The reply composer

  /** The four style buttons and the delimiter each writes around the
      selection. */
  datatype Style = Bold | Italic | Superscript | Subscript

  function Delimiter(st: Style): (d: string)
    ensures |d| > 0
  {
    match st
    case Bold => "**"
    case Italic => "*"
    case Superscript => "^^"
    case Subscript => "__"
  }

  /** The tags the display pass for that delimiter puts around the text. */
  function OpenTag(st: Style): string
  {
    match st
    case Bold => "<strong>"
    case Italic => "<em>"
    case Superscript => "<sup>"
    case Subscript => "<sub>"
  }

  function CloseTag(st: Style): string
  {
    match st
    case Bold => "</strong>"
    case Italic => "</em>"
    case Superscript => "</sup>"
    case Subscript => "</sub>"
  }

  /** A valid selection of a text area holding `v`. */
  predicate Selection(v: string, start: int, end: int)
  {
    0 <= start <= end <= |v|
  }

  /** A style button: the text up to the selection, the delimiter, the
      selection, the delimiter, the rest. */
  function WrapSelection(v: string, start: int, end: int, d: string): (r: string)
    ensures Selection(v, start, end) ==> |r| == |v| + 2 * |d|
  {
    Substring(v, 0, start) + d + Substring(v, start, end) + d + SubstringFrom(v, end)
  }

  /** On a valid selection the delimiters land exactly around it. */
  lemma WrapSelectionShape(v: string, start: int, end: int, d: string)
    requires Selection(v, start, end)
    ensures WrapSelection(v, start, end, d) == v[..start] + d + v[start..end] + d + v[end..]
  {
  }

  /** Cutting the two delimiters out of `a d b d c` leaves `a b c`. */
  lemma CutDelimiters(r: string, a: string, b: string, c: string, d: string)
    requires r == a + d + b + d + c
    ensures r[|a|..|a| + |d|] == d && r[|a| + |d| + |b|..|a| + 2 * |d| + |b|] == d
    ensures r[..|a|] + r[|a| + |d|..|a| + |d| + |b|] + r[|a| + 2 * |d| + |b|..] == a + b + c
  {
    assert r[..|a|] == a;
    assert r[|a|..|a| + |d|] == d;
    assert r[|a| + |d|..|a| + |d| + |b|] == b;
    assert r[|a| + |d| + |b|..|a| + 2 * |d| + |b|] == d;
    assert r[|a| + 2 * |d| + |b|..] == c;
  }

  /** The style buttons are undone by cutting the delimiters out again: the
      text around and inside the selection is kept as it was. */
  lemma UnwrapSelection(v: string, start: int, end: int, d: string)
    requires Selection(v, start, end)
    ensures var r := WrapSelection(v, start, end, d);
      r[start..start + |d|] == d && r[end + |d|..end + 2 * |d|] == d &&
      r[..start] + r[start + |d|..end + |d|] + r[end + 2 * |d|..] == v
  {
    var a, b, c := v[..start], v[start..end], v[end..];
    assert |a| == start && |a| + |b| == end;
    assert a + b + c == v;
    WrapSelectionShape(v, start, end, d);
    CutDelimiters(WrapSelection(v, start, end, d), a, b, c, d);
  }

  /** A character missing from a text is missing from the three parts a
      selection cuts it into. */
  lemma NotInParts(v: string, start: int, end: int, c: char)
    requires Selection(v, start, end) && c !in v
    ensures c !in v[..start] && c !in v[start..end] && c !in v[end..]
  {
    assert v == v[..start] + v[start..end] + v[end..];
  }

  /** What a style button writes, the display pass for that delimiter
      renders: the selection comes out between the tags, when the text holds
      no character the delimiter starts with. */
  lemma WrapRenders(v: string, start: int, end: int, d: string, open: string, close: string)
    requires Selection(v, start, end) && |d| > 0 && d[0] !in v
    ensures Markup.StylePass(WrapSelection(v, start, end, d), d, open, close)
      == v[..start] + open + v[start..end] + close + v[end..]
  {
    WrapSelectionShape(v, start, end, d);
    NotInParts(v, start, end, d[0]);
    Markup.StylePassTriple(v[..start], v[start..end], v[end..], d, open, close);
  }

  /** Each style button and the display pass of its style agree. */
  lemma StyleButtonRenders(v: string, start: int, end: int, st: Style)
    requires Selection(v, start, end) && Delimiter(st)[0] !in v
    ensures Markup.StylePass(WrapSelection(v, start, end, Delimiter(st)), Delimiter(st), OpenTag(st), CloseTag(st))
      == v[..start] + OpenTag(st) + v[start..end] + CloseTag(st) + v[end..]
  {
    WrapRenders(v, start, end, Delimiter(st), OpenTag(st), CloseTag(st));
  }

  /** The link button: the selection as both caption and address. */
  function LinkSelection(v: string, start: int, end: int): (r: string)
    ensures Selection(v, start, end) ==> |r| == |v| + (end - start) + 4
  {
    Substring(v, 0, start) + "[" + Substring(v, start, end) + "](" + Substring(v, start, end) + ")"
      + SubstringFrom(v, end)
  }

  /** On a valid selection the link button writes `[sel](sel)` in place of
      the selection; on a text without brackets the link loop then turns it
      into an anchor to the selection labelled with the selection. */
  lemma LinkButtonRenders(v: string, start: int, end: int, fuel: nat)
    requires Selection(v, start, end) && Markup.Bracketless(v) && fuel >= 1
    ensures LinkSelection(v, start, end) == v[..start] + Markup.LinkText(v[start..end], v[start..end]) + v[end..]
    ensures Markup.LinkLoop(LinkSelection(v, start, end), fuel)
      == Some(v[..start] + Markup.AnchorTag(v[start..end], v[start..end]) + v[end..])
  {
    var pre, sel, post := v[..start], v[start..end], v[end..];
    LinkSelectionShape(v, start, end);
    LinkPartsBracketless(v, start, end);
    ThreeSegments(pre, sel, post);
    Markup.LinkLoopWellFormed([Markup.Plain(pre), Markup.Link(sel, sel), Markup.Plain(post)], fuel);
  }

  lemma LinkSelectionShape(v: string, start: int, end: int)
    requires Selection(v, start, end)
    ensures LinkSelection(v, start, end) == v[..start] + Markup.LinkText(v[start..end], v[start..end]) + v[end..]
  {
  }

  lemma LinkPartsBracketless(v: string, start: int, end: int)
    requires Selection(v, start, end) && Markup.Bracketless(v)
    ensures Markup.Bracketless(v[..start]) && Markup.Bracketless(v[start..end]) && Markup.Bracketless(v[end..])
  {
    assert v == v[..start] + v[start..end] + v[end..];
  }

  /** A link between two plain runs, as segments. */
  lemma ThreeSegments(pre: string, sel: string, post: string)
    requires Markup.Bracketless(pre) && Markup.Bracketless(sel) && Markup.Bracketless(post)
    ensures var segs := [Markup.Plain(pre), Markup.Link(sel, sel), Markup.Plain(post)];
      Markup.WellFormedSegments(segs) && Markup.LinkCount(segs) == 1 &&
      Markup.Source(segs) == pre + Markup.LinkText(sel, sel) + post &&
      Markup.Anchors(segs) == pre + Markup.AnchorTag(sel, sel) + post
  {
    var segs := [Markup.Plain(pre), Markup.Link(sel, sel), Markup.Plain(post)];
    var tail := segs[1..];
    var last := tail[1..];
    assert tail == [Markup.Link(sel, sel), Markup.Plain(post)] && last == [Markup.Plain(post)];
    assert last[1..] == [];
    assert Markup.Source(last) == post;
    assert Markup.Source(tail) == Markup.LinkText(sel, sel) + post;
    assert Markup.Anchors(last) == post;
    assert Markup.Anchors(tail) == Markup.AnchorTag(sel, sel) + post;
    assert Markup.LinkCount(last) == 0;
  }

  /** A shortcode button appends its shortcode to the end of the text. */
  function AppendShortcode(v: string, k: Kind): (r: string)
    ensures |r| == |v| + |KindName(k)| + 2
    ensures r[..|v|] == v && r[|v|..] == Shortcode(k)
  {
    v + Shortcode(k)
  }

  /** A key event of the text area. */
  datatype KeyEvent = KeyDown(key: string) | KeyUp(key: string)

  /** The `messageEvent` that sends the text. */
  datatype MessageEvent = MessageEvent(name: Option<string>, message: string, parent: string)

  /** Whether Shift is held after a key event. */
  function ShiftAfter(held: bool, e: KeyEvent): bool
  {
    match e
    case KeyDown(key) => held || key == "Shift"
    case KeyUp(key) => held && key != "Shift"
  }

  /** A key event sends the text exactly when it is Enter going down with
      Shift not held. */
  predicate Sends(held: bool, e: KeyEvent)
  {
    e.KeyDown? && e.key == "Enter" && !ShiftAfter(held, e)
  }

  /** Whether Shift is held after a run of key events. */
  function ShiftAfterAll(held: bool, events: seq<KeyEvent>): bool
    decreases |events|
  {
    if events == [] then held else ShiftAfterAll(ShiftAfter(held, events[0]), events[1..])
  }

  /** Once Shift goes down it stays held until it comes up again, so no
      Enter in between sends. */
  lemma {:induction false} ShiftHeldUntilReleased(held: bool, events: seq<KeyEvent>)
    requires forall i :: 0 <= i < |events| ==> events[i] != KeyUp("Shift")
    ensures held ==> ShiftAfterAll(held, events)
    ensures held ==> forall i :: 0 <= i < |events| ==> !Sends(ShiftAfterAll(held, events[..i]), events[i])
    decreases |events|
  {
    if events != [] && held {
      assert ShiftAfter(held, events[0]);
      ShiftHeldUntilReleased(true, events[1..]);
      forall i | 0 <= i < |events| ensures !Sends(ShiftAfterAll(held, events[..i]), events[i]) {
        if i > 0 {
          assert events[..i][0] == events[0] && events[..i][1..] == events[1..][..i - 1];
          assert events[i] == events[1..][i - 1];
        }
      }
    }
  }

  /** Enter sends once Shift has come up again. */
  lemma EnterAfterRelease(held: bool)
    ensures !ShiftAfterAll(held, [KeyUp("Shift")])
    ensures Sends(ShiftAfterAll(held, [KeyUp("Shift")]), KeyDown("Enter"))
    ensures !Sends(ShiftAfterAll(held, [KeyDown("Shift")]), KeyDown("Enter"))
  {
    assert [KeyUp("Shift")][1..] == [];
    assert [KeyDown("Shift")][1..] == [];
  }

  /** The reply form of a post: the text area's value, the Shift flag, and
      the channel and parent the reply goes to. */
  class Composer {
    var value: string
    var shiftHeld: bool
    const channel: Option<string>
    const parent: string

    constructor(channel: Option<string>, parent: string)
      ensures value == "" && !shiftHeld
      ensures this.channel == channel && this.parent == parent
    {
      value := "";
      shiftHeld := false;
      this.channel := channel;
      this.parent := parent;
    }

    /** A key going down: Shift sets the flag; Enter sends unless it is set. */
    method KeyDown(key: string) returns (sent: Option<MessageEvent>)
      modifies this
      ensures shiftHeld == ShiftAfter(old(shiftHeld), KeyEvent.KeyDown(key))
      ensures sent.Some? <==> Sends(old(shiftHeld), KeyEvent.KeyDown(key))
      ensures sent.Some? ==> sent.value == MessageEvent(channel, value, parent)
      ensures value == old(value)
    {
      if key == "Shift" {
        shiftHeld := true;
      }
      sent := None;
      if key == "Enter" {
        if !shiftHeld {
          sent := Some(MessageEvent(channel, value, parent));
        }
      }
    }

    /** A key coming up: Shift clears the flag. */
    method KeyUp(key: string)
      modifies this
      ensures shiftHeld == ShiftAfter(old(shiftHeld), KeyEvent.KeyUp(key))
      ensures value == old(value)
    {
      if key == "Shift" {
        shiftHeld := false;
      }
    }

    /** The send button always sends the current text. */
    method SendClick() returns (sent: MessageEvent)
      ensures sent.message == value && sent.name == channel && sent.parent == parent
    {
      sent := MessageEvent(channel, value, parent);
    }

    method StyleClick(st: Style, start: int, end: int)
      modifies this
      ensures value == WrapSelection(old(value), start, end, Delimiter(st))
      ensures shiftHeld == old(shiftHeld)
    {
      value := WrapSelection(value, start, end, Delimiter(st));
    }

    method LinkClick(start: int, end: int)
      modifies this
      ensures value == LinkSelection(old(value), start, end)
      ensures shiftHeld == old(shiftHeld)
    {
      value := LinkSelection(value, start, end);
    }

    method ShortcodeClick(k: Kind)
      modifies this
      ensures value == AppendShortcode(old(value), k)
      ensures shiftHeld == old(shiftHeld)
    {
      value := AppendShortcode(value, k);
    }
  }
}
