/** The client-side protection layer: the transient cover over the protected content, the event
    handlers that raise it, and the noise pattern painted over the content. The page's DOM is
    reduced to the content element's bounding box, read again at every call (absent when no element
    matches the selector), and the timers to an explicit clock in milliseconds. */
module Security {
  import opened Text
  import opened Ordering

  /** The content element's bounding box. */
  datatype Rect = Rect(top: int, left: int, width: int, height: int)

  /** A cover laid over the content, and the time at which its removal timer fires. */
  datatype Overlay = Overlay(rect: Rect, removeAt: int)

  /** How long a cover stays up, in milliseconds. */
  const CoverDuration := 1000

  /** Horizontal gap between the outer and inner window width above which dev tools are assumed open. */
  const DevToolsGap := 160

  /** What `getDisplayMedia` yields once the layer is armed. */
  datatype CaptureResult = Rejected(message: string) | BrowserDefault

  const CaptureDenied := "Screen capture is not allowed"

  /** A node inserted into the page: an HTML element with its `id` and `className`, or another
      kind of node (text, comment, SVG), which the observer ignores. */
  datatype AddedNode = Element(id: string, className: string) | OtherNode

  /** One record delivered to the mutation observer. */
  datatype Mutation = Mutation(addedNodes: seq<AddedNode>)

  // ---- Trigger predicates ----------------------------------------------------------------

  /** `visibilitychange` covers the content only when the page became hidden. */
  predicate IsHidden(visibilityState: string)
  {
    visibilityState == "hidden"
  }

  /** Ctrl+P, with a lower-case `p` as `KeyboardEvent.key` reports it. */
  predicate IsPrintShortcut(ctrlKey: bool, key: string)
  {
    ctrlKey && key == "p"
  }

  predicate IsPrintScreen(key: string)
  {
    key == "PrintScreen"
  }

  /** The dev-tools heuristic: a Chrome user agent, a Google vendor string, and a window whose
      outer width exceeds its inner width by more than the gap. */
  predicate DevToolsSuspected(userAgent: string, vendor: string, outerWidth: int, innerWidth: int)
  {
    Includes(userAgent, "Chrome") && Includes(vendor, "Google Inc") && outerWidth - innerWidth > DevToolsGap
  }

  /** An inserted element whose id or class name names a known screenshot extension. */
  predicate IsCaptureToolMarker(node: AddedNode)
  {
    node.Element? &&
    (Includes(node.id, "lightshot") || Includes(node.className, "lightshot") ||
     Includes(node.id, "screenshot") || Includes(node.className, "screenshot"))
  }

  /** The six events whose default action is prevented inside the content element. */
  const SuppressedEvents: set<string> := {"selectstart", "dragstart", "contextmenu", "copy", "cut", "paste"}

  /** Whether an event's default action is prevented: only for the six suppressed kinds, only
      inside the content element, and only if that element existed when the layer was armed. */
  predicate DefaultPrevented(contentGuarded: bool, insideContent: bool, eventType: string)
  {
    contentGuarded && insideContent && eventType in SuppressedEvents
  }

  // ---- Counting covers --------------------------------------------------------------------

  /** `n` covers over `content` that all come down at `removeAt`; none when there is no content. */
  function Covers(content: Option<Rect>, removeAt: int, n: nat): (r: seq<Overlay>)
    ensures |r| == if content.None? then 0 else n
    ensures forall o :: o in r ==> content.Some? && o == Overlay(content.value, removeAt)
  {
    if content.None? || n == 0 then [] else Covers(content, removeAt, n - 1) + [Overlay(content.value, removeAt)]
  }

  lemma {:induction false} CoversAdd(content: Option<Rect>, removeAt: int, a: nat, b: nat)
    ensures Covers(content, removeAt, a) + Covers(content, removeAt, b) == Covers(content, removeAt, a + b)
  {
    if content.Some? && b > 0 {
      CoversAdd(content, removeAt, a, b - 1);
    }
  }

  /** How many of `nodes` are screenshot-extension markers. */
  function MarkerCount(nodes: seq<AddedNode>): (n: nat)
    ensures n <= |nodes|
    ensures n == 0 <==> forall k :: 0 <= k < |nodes| ==> !IsCaptureToolMarker(nodes[k])
  {
    if nodes == [] then 0
    else
      var init := nodes[..|nodes| - 1];
      assert forall k :: 0 <= k < |init| ==> init[k] == nodes[k];
      MarkerCount(init) + if IsCaptureToolMarker(nodes[|nodes| - 1]) then 1 else 0
  }

  /** How many markers a batch of mutation records inserts. */
  function BatchMarkerCount(mutations: seq<Mutation>): nat
  {
    if mutations == [] then 0
    else BatchMarkerCount(mutations[..|mutations| - 1]) + MarkerCount(mutations[|mutations| - 1].addedNodes)
  }

  lemma AppendAssociates(a: seq<Overlay>, b: seq<Overlay>, c: seq<Overlay>)
    ensures (a + b) + c == a + (b + c)
  {
  }

  lemma BatchMarkerCountStep(mutations: seq<Mutation>, i: nat)
    requires i < |mutations|
    ensures BatchMarkerCount(mutations[..i + 1]) == BatchMarkerCount(mutations[..i]) + MarkerCount(mutations[i].addedNodes)
  {
    assert mutations[..i + 1][..i] == mutations[..i];
  }

  /** The covers whose timer has not fired by `now`, in their original order, each as many times
      as it was shown. */
  function StillShown(overlays: seq<Overlay>, now: int): (r: seq<Overlay>)
    ensures forall o :: multiset(r)[o] == if o.removeAt > now then multiset(overlays)[o] else 0
    ensures forall o :: o in r <==> o in overlays && o.removeAt > now
    ensures (forall o :: o in overlays ==> o.removeAt <= now) ==> r == []
  {
    var r := Filter(overlays, (o: Overlay) => o.removeAt > now);
    assert forall o :: o in r <==> o in multiset(r);
    assert forall o :: o in overlays <==> o in multiset(overlays);
    assert (forall o :: o in overlays ==> o.removeAt <= now) ==> forall o :: o !in r;
    r
  }

  // ---- The armed layer ----------------------------------------------------------------------

  /** The state `initSecurity` keeps across events: the last recorded viewport size, the covers
      currently shown, the clock, and what was found when the layer was armed. */
  class ProtectionLayer {
    var lastWidth: int
    var lastHeight: int
    var overlays: seq<Overlay>
    var clock: int
    const contentGuarded: bool
    const capturePatched: bool
    const clipboardPresent: bool

    /** Every cover still shown comes down within `CoverDuration` of now. */
    ghost predicate Valid()
      reads this
    {
      forall i :: 0 <= i < |overlays| ==> clock < overlays[i].removeAt <= clock + CoverDuration
    }

    /** Arming: records the viewport size, notes whether the content element exists (so that the
        six suppressing listeners were attached), whether `getDisplayMedia` exists to be replaced,
        and whether the page can reach `navigator.clipboard` (only secure contexts can). */
    constructor (innerWidth: int, innerHeight: int, contentPresent: bool, hasDisplayMedia: bool,
                 hasClipboard: bool, now: int)
      ensures Valid()
      ensures lastWidth == innerWidth && lastHeight == innerHeight
      ensures overlays == [] && clock == now
      ensures contentGuarded == contentPresent && capturePatched == hasDisplayMedia
      ensures clipboardPresent == hasClipboard
    {
      lastWidth, lastHeight := innerWidth, innerHeight;
      overlays := [];
      clock := now;
      contentGuarded := contentPresent;
      capturePatched := hasDisplayMedia;
      clipboardPresent := hasClipboard;
    }

    /** Time passes: every removal timer due by `now` fires and takes its cover down. */
    method AdvanceClock(now: int)
      requires Valid() && clock <= now
      modifies this`overlays, this`clock
      ensures Valid() && clock == now
      ensures overlays == StillShown(old(overlays), now)
      ensures now >= old(clock) + CoverDuration ==> overlays == []
    {
      overlays := StillShown(overlays, now);
      clock := now;
      forall i | 0 <= i < |overlays| ensures clock < overlays[i].removeAt <= clock + CoverDuration {
        assert overlays[i] in old(overlays);
      }
      if now >= old(clock) + CoverDuration {
        forall o | o in old(overlays) ensures o.removeAt <= now {
          var i :| 0 <= i < |old(overlays)| && old(overlays)[i] == o;
        }
      }
    }

    /** `hideContent`: nothing when no element matches; otherwise one cover over the element's
        box, taken down `CoverDuration` later. */
    method HideContent(content: Option<Rect>)
      requires Valid()
      modifies this`overlays
      ensures Valid()
      ensures overlays == old(overlays) + Covers(content, clock + CoverDuration, 1)
    {
      if content.Some? {
        overlays := overlays + [Overlay(content.value, clock + CoverDuration)];
      }
    }

    method OnVisibilityChange(visibilityState: string, content: Option<Rect>)
      requires Valid()
      modifies this`overlays
      ensures Valid()
      ensures overlays == old(overlays) + Covers(content, clock + CoverDuration, if IsHidden(visibilityState) then 1 else 0)
    {
      if IsHidden(visibilityState) {
        HideContent(content);
      }
    }

    method OnBlur(content: Option<Rect>)
      requires Valid()
      modifies this`overlays
      ensures Valid()
      ensures overlays == old(overlays) + Covers(content, clock + CoverDuration, 1)
    {
      HideContent(content);
    }

    /** A resize covers the content only when the size differs from the one last recorded, and
        only then records the new size. */
    method OnResize(innerWidth: int, innerHeight: int, content: Option<Rect>)
      requires Valid()
      modifies this`overlays, this`lastWidth, this`lastHeight
      ensures Valid()
      ensures var changed := innerWidth != old(lastWidth) || innerHeight != old(lastHeight);
        && overlays == old(overlays) + Covers(content, clock + CoverDuration, if changed then 1 else 0)
        && (lastWidth, lastHeight) == if changed then (innerWidth, innerHeight) else (old(lastWidth), old(lastHeight))
    {
      if innerWidth != lastWidth || innerHeight != lastHeight {
        HideContent(content);
        lastWidth := innerWidth;
        lastHeight := innerHeight;
      }
    }

    /** The replaced `window.print`: always covers and reports `false`. */
    method Print(content: Option<Rect>) returns (result: bool)
      requires Valid()
      modifies this`overlays
      ensures Valid()
      ensures !result
      ensures overlays == old(overlays) + Covers(content, clock + CoverDuration, 1)
    {
      HideContent(content);
      result := false;
    }

    /** `getDisplayMedia`: when it existed at arming, the replacement covers the content and
        rejects; otherwise the browser's own behaviour is untouched. */
    method GetDisplayMedia(content: Option<Rect>) returns (result: CaptureResult)
      requires Valid()
      modifies this`overlays
      ensures Valid()
      ensures capturePatched ==> result == Rejected(CaptureDenied)
      ensures !capturePatched ==> result == BrowserDefault
      ensures overlays == old(overlays) + Covers(content, clock + CoverDuration, if capturePatched then 1 else 0)
    {
      if capturePatched {
        HideContent(content);
        result := Rejected(CaptureDenied);
      } else {
        result := BrowserDefault;
      }
    }

    /** One tick of the one-second dev-tools poll. */
    method DevToolsPoll(userAgent: string, vendor: string, outerWidth: int, innerWidth: int, content: Option<Rect>)
      requires Valid()
      modifies this`overlays
      ensures Valid()
      ensures overlays == old(overlays) +
        Covers(content, clock + CoverDuration, if DevToolsSuspected(userAgent, vendor, outerWidth, innerWidth) then 1 else 0)
    {
      var debuggerEnabled := Includes(userAgent, "Chrome") && Includes(vendor, "Google Inc");
      if debuggerEnabled && outerWidth - innerWidth > DevToolsGap {
        HideContent(content);
      }
    }

    /** Key release: PrintScreen clears the clipboard, then covers the content. Without
        `navigator.clipboard` the clearing call throws first, and no cover is raised. */
    method OnKeyUp(key: string, content: Option<Rect>)
      requires Valid()
      modifies this`overlays
      ensures Valid()
      ensures overlays == old(overlays) +
        Covers(content, clock + CoverDuration, if IsPrintScreen(key) && clipboardPresent then 1 else 0)
    {
      if IsPrintScreen(key) {
        if !clipboardPresent {
          return; // the handler stops at the TypeError
        }
        HideContent(content);
      }
    }

    /** Key press: Ctrl+P has its default prevented and covers the content. */
    method OnKeyDown(ctrlKey: bool, key: string, content: Option<Rect>) returns (preventDefault: bool)
      requires Valid()
      modifies this`overlays
      ensures Valid()
      ensures preventDefault == IsPrintShortcut(ctrlKey, key)
      ensures overlays == old(overlays) + Covers(content, clock + CoverDuration, if preventDefault then 1 else 0)
    {
      preventDefault := false;
      if ctrlKey && key == "p" {
        preventDefault := true;
        HideContent(content);
      }
    }

    /** The observer's inner loop: one cover per inserted marker element. */
    method OnAddedNodes(nodes: seq<AddedNode>, content: Option<Rect>)
      requires Valid()
      modifies this`overlays
      ensures Valid()
      ensures overlays == old(overlays) + Covers(content, clock + CoverDuration, MarkerCount(nodes))
    {
      var i := 0;
      while i < |nodes|
        invariant 0 <= i <= |nodes|
        invariant Valid()
        invariant overlays == old(overlays) + Covers(content, clock + CoverDuration, MarkerCount(nodes[..i]))
      {
        assert nodes[..i + 1][..i] == nodes[..i];
        if IsCaptureToolMarker(nodes[i]) {
          HideContent(content);
        }
        i := i + 1;
      }
      assert nodes[..i] == nodes;
    }

    /** The mutation observer's callback over one batch of records. */
    method OnMutations(mutations: seq<Mutation>, content: Option<Rect>)
      requires Valid()
      modifies this`overlays
      ensures Valid()
      ensures overlays == old(overlays) + Covers(content, clock + CoverDuration, BatchMarkerCount(mutations))
    {
      ghost var start, removeAt := overlays, clock + CoverDuration;
      var i := 0;
      while i < |mutations|
        invariant 0 <= i <= |mutations|
        invariant Valid()
        invariant overlays == start + Covers(content, removeAt, BatchMarkerCount(mutations[..i]))
      {
        BatchMarkerCountStep(mutations, i);
        ghost var done, here := BatchMarkerCount(mutations[..i]), MarkerCount(mutations[i].addedNodes);
        OnAddedNodes(mutations[i].addedNodes, content);
        CoversAdd(content, removeAt, done, here);
        AppendAssociates(start, Covers(content, removeAt, done), Covers(content, removeAt, here));
        i := i + 1;
      }
      assert mutations[..i] == mutations;
    }
  }

  // ---- Noise pattern ------------------------------------------------------------------------

  /** A byte of a canvas pixel buffer. */
  type Byte = x: int | 0 <= x < 256

  /** Alpha given to every noise pixel. */
  const NoiseAlpha: Byte := 5

  /** `createPattern`: a canvas with a zero side is taken as 100 by 100; the RGBA buffer for it
      gets the noise source's bytes in its colour channels and `NoiseAlpha` in every alpha byte. */
  method CreatePattern(width: nat, height: nat, noise: nat -> Byte) returns (w: nat, h: nat, data: array<Byte>)
    ensures if width == 0 || height == 0 then w == 100 && h == 100 else w == width && h == height
    ensures data.Length == 4 * (w * h)
    ensures forall k :: 0 <= k < data.Length ==> data[k] == if k % 4 == 3 then NoiseAlpha else noise(k)
  {
    w, h := width, height;
    if w == 0 || h == 0 {
      w, h := 100, 100;
    }
    data := new Byte[4 * (w * h)];
    var i := 0;
    while i < data.Length
      invariant 0 <= i <= data.Length && i % 4 == 0
      invariant forall k :: 0 <= k < i ==> data[k] == if k % 4 == 3 then NoiseAlpha else noise(k)
    {
      data[i] := noise(i);
      data[i + 1] := noise(i + 1);
      data[i + 2] := noise(i + 2);
      data[i + 3] := NoiseAlpha;
      i := i + 4;
    }
  }

  // ---- Properties of the triggers -------------------------------------------------------------

  /** Only a lower-case `p` with Ctrl held is the print shortcut. */
  lemma PrintShortcutIsExact()
    ensures IsPrintShortcut(true, "p")
    ensures !IsPrintShortcut(true, "P") && !IsPrintShortcut(false, "p")
  {
  }

  /** An element counts exactly when a marker occurs, at some index, in its id or its class name. */
  lemma {:induction false} MarkerIffOccurs(node: AddedNode)
    ensures IsCaptureToolMarker(node) <==>
      node.Element? &&
      exists i: nat :: (|| OccursAt(node.id, "lightshot", i) || OccursAt(node.className, "lightshot", i)
                        || OccursAt(node.id, "screenshot", i) || OccursAt(node.className, "screenshot", i))
  {
    if node.Element? {
      IncludesIffOccurs(node.id, "lightshot");
      IncludesIffOccurs(node.className, "lightshot");
      IncludesIffOccurs(node.id, "screenshot");
      IncludesIffOccurs(node.className, "screenshot");
    }
  }

  /** Examples: a marker inside a longer class name or at the start of an id counts. */
  lemma {:induction false} MarkerInsideName()
    ensures IsCaptureToolMarker(Element("", "btn screenshot-tool"))
    ensures IsCaptureToolMarker(Element("lightshot-root", ""))
  {
    var c := "btn screenshot-tool";
    assert OccursAt(c, "screenshot", 4);
    IncludesIffOccurs(c, "screenshot");
    var d := "lightshot-root";
    assert OccursAt(d, "lightshot", 0);
    IncludesIffOccurs(d, "lightshot");
  }

  /** Nodes that are not elements never raise a cover. */
  lemma OtherNodesIgnored()
    ensures !IsCaptureToolMarker(OtherNode)
  {
  }

  /** Example: an element named `main` with class `post` raises no cover. */
  lemma {:induction false} PlainElementIgnored()
    ensures !IsCaptureToolMarker(Element("main", "post"))
  {
    NotIncludesMissingChar("main", "lightshot", 0);
    NotIncludesMissingChar("main", "screenshot", 0);
    NotIncludesMissingChar("post", "lightshot", 0);
    NotIncludesMissingChar("post", "screenshot", 1);
  }

  /** The dev-tools heuristic, stated by occurrences: `Chrome` somewhere in the agent,
      `Google Inc` somewhere in the vendor, and a gap above 160. */
  lemma {:induction false} DevToolsSuspectedIffOccurs(userAgent: string, vendor: string, outerWidth: int, innerWidth: int)
    ensures DevToolsSuspected(userAgent, vendor, outerWidth, innerWidth) <==>
      && (exists i: nat :: OccursAt(userAgent, "Chrome", i))
      && (exists j: nat :: OccursAt(vendor, "Google Inc", j))
      && outerWidth - innerWidth > DevToolsGap
  {
    IncludesIffOccurs(userAgent, "Chrome");
    IncludesIffOccurs(vendor, "Google Inc");
  }

  /** The heuristic needs the Google vendor string: a browser whose vendor does not contain
      `Google Inc` is never suspected, however wide the gap. */
  lemma {:induction false} DevToolsNeedsGoogleVendor(userAgent: string, vendor: string, outerWidth: int, innerWidth: int)
    requires forall j: nat :: !OccursAt(vendor, "Google Inc", j)
    ensures !DevToolsSuspected(userAgent, vendor, outerWidth, innerWidth)
  {
    DevToolsSuspectedIffOccurs(userAgent, vendor, outerWidth, innerWidth);
  }

  /** The six content listeners: an event's default is prevented only inside the content element,
      only if it existed at arming, and for exactly the six listed kinds. */
  lemma {:induction false} ContentListenersSuppressExactlySix(contentGuarded: bool, insideContent: bool, eventType: string)
    ensures !contentGuarded || !insideContent ==> !DefaultPrevented(contentGuarded, insideContent, eventType)
    ensures contentGuarded && insideContent ==>
      (DefaultPrevented(contentGuarded, insideContent, eventType) <==>
       eventType in ["selectstart", "dragstart", "contextmenu", "copy", "cut", "paste"])
    ensures !DefaultPrevented(contentGuarded, insideContent, "keydown")
  {
  }
}
