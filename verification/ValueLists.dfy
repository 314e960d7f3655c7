/** LISTofVALUE requests sent once per screen, with the screen's own identifiers (Xext/panoramiXprocs.c). */
module ValueLists {

  type CARD32 = x: int | 0 <= x < 0x1_0000_0000

  datatype Option<T> = None | Some(value: T)

  /** Whether bit `b` of a mask is set. */
  predicate Has(mask: nat, b: nat) {
    if b == 0 then mask % 2 == 1 else Has(mask / 2, b - 1)
  }

  /** Bits are numbered from the least significant. */
  lemma HasBits(mask: nat, d: nat, b: nat)
    requires d < 2
    ensures Has(2 * mask + d, 0) <==> d == 1
    ensures Has(2 * mask + d, b + 1) <==> Has(mask, b)
    ensures Ones(2 * mask + d) == Ones(mask) + d && Ones(0) == 0
  {
    assert (2 * mask + d) / 2 == mask && (2 * mask + d) % 2 == d;
  }

  /** The number of bits set. */
  function Ones(mask: nat): nat {
    if mask == 0 then 0 else mask % 2 + Ones(mask / 2)
  }

  /** The bits of a mask below bit `b`: mask & (bit - 1), where bit is 2 to the `b`. */
  function Below(mask: nat, b: nat): nat {
    if b == 0 then 0 else mask % 2 + 2 * Below(mask / 2, b - 1)
  }

  /** Ones(mask & (bit - 1)). */
  function Offset(mask: nat, b: nat): nat {
    Ones(Below(mask, b))
  }

  /**
   * How a value list is read: one value for each bit set in the mask, least significant bit first. The result
   * is the value for bit `b`.
   */
  function Value(mask: nat, list: seq<CARD32>, b: nat): Option<CARD32>
    requires |list| == Ones(mask)
    decreases b
  {
    if mask % 2 == 1 then (if b == 0 then Some(list[0]) else Value(mask / 2, list[1..], b - 1))
    else if b == 0 then None
    else Value(mask / 2, list, b - 1)
  }

  lemma OffsetStep(mask: nat, b: nat)
    requires b > 0
    ensures Offset(mask, b) == mask % 2 + Offset(mask / 2, b - 1)
  {
    assert Below(mask, b) / 2 == Below(mask / 2, b - 1);
  }

  /** The word at Ones(mask & (bit - 1)) is the one that is read for the bit. */
  lemma {:induction false} OffsetReads(mask: nat, list: seq<CARD32>, b: nat)
    requires |list| == Ones(mask)
    ensures Has(mask, b) ==> Offset(mask, b) < |list| && Value(mask, list, b) == Some(list[Offset(mask, b)])
    ensures !Has(mask, b) ==> Value(mask, list, b) == None
  {
    if b > 0 {
      OffsetStep(mask, b);
      OffsetReads(mask / 2, if mask % 2 == 1 then list[1..] else list, b - 1);
    }
  }

  /** Replacing that word replaces the value of that bit, and of no other. */
  lemma {:induction false} ReplaceOne(mask: nat, list: seq<CARD32>, b: nat, v: CARD32, c: nat)
    requires |list| == Ones(mask) && Has(mask, b)
    ensures Offset(mask, b) < |list|
    ensures Value(mask, list[Offset(mask, b) := v], c) == if c == b then Some(v) else Value(mask, list, c)
    decreases b
  {
    OffsetReads(mask, list, b);
    var at := Offset(mask, b);
    if b > 0 {
      OffsetStep(mask, b);
      if mask % 2 == 1 {
        assert list[at := v][1..] == list[1..][at - 1 := v];
      }
      if c > 0 {
        ReplaceOne(mask / 2, if mask % 2 == 1 then list[1..] else list, b - 1, v, c - 1);
      }
    } else if c > 0 {
      assert list[0 := v][1..] == list[1..];
    }
  }

  /** `list` reads as `original` does, except for the values of `changes`. */
  ghost predicate Rewritten(mask: nat, list: seq<CARD32>, original: seq<CARD32>, changes: map<nat, CARD32>)
    requires |list| == |original| == Ones(mask)
  {
    forall b :: Value(mask, list, b) == if b in changes then Some(changes[b]) else Value(mask, original, b)
  }

  lemma RewriteOne(mask: nat, list: seq<CARD32>, original: seq<CARD32>, changes: map<nat, CARD32>, b: nat, v: CARD32)
    requires |list| == |original| == Ones(mask) && Has(mask, b)
    requires Rewritten(mask, list, original, changes)
    ensures Offset(mask, b) < |list|
    ensures Rewritten(mask, list[Offset(mask, b) := v], original, changes[b := v])
  {
    OffsetReads(mask, list, b);
    hide Value, Has, Offset, Ones;
    var list', changes' := list[Offset(mask, b) := v], changes[b := v];
    forall c: nat
      ensures Value(mask, list', c) == if c in changes' then Some(changes'[c]) else Value(mask, original, c)
    {
      ReplaceOne(mask, list, b, v, c);
      assert Value(mask, list, c) == if c in changes then Some(changes[c]) else Value(mask, original, c);
    }
    assert Rewritten(mask, list', original, changes');
  }

  // ---- Identifiers that differ from screen to screen ----

  /** The identifiers of one resource, one for each screen. */
  type Ids = seq<CARD32>

  /** An attribute that names a resource: not given or naming none, unknown, or known. */
  datatype Found = Absent | Unknown | Known(ids: Ids)

  /** What the value of bit `b` names; the values in `none` name nothing. */
  function Named(mask: nat, list: seq<CARD32>, b: nat, none: set<CARD32>, table: map<CARD32, Ids>): Found
    requires |list| == Ones(mask)
  {
    match Value(mask, list, b)
    case None => Absent
    case Some(v) => if v in none then Absent else if v in table then Known(table[v]) else Unknown
  }

  /** The word at the computed offset is looked up. */
  method LookUp(mask: nat, list: array<CARD32>, b: nat, none: set<CARD32>, table: map<CARD32, Ids>)
    returns (found: Found)
    requires list.Length == Ones(mask)
    ensures found == Named(mask, list[..], b, none, table)
  {
    found := Absent;
    OffsetReads(mask, list[..], b);
    if Has(mask, b) {
      var v := list[Offset(mask, b)];
      if v !in none {
        found := if v in table then Known(table[v]) else Unknown;
      }
    }
  }

  /** Three attributes that may name resources. */
  datatype Slots = Slots(b0: nat, f0: Found, b1: nat, f1: Found, b2: nat, f2: Found)
  {
    predicate Fits(mask: nat, screens: nat) {
      && Fit(mask, b0, f0, screens) && Fit(mask, b1, f1, screens) && Fit(mask, b2, f2, screens)
    }

    static predicate Fit(mask: nat, b: nat, f: Found, screens: nat) {
      f.Known? ==> Has(mask, b) && |f.ids| == screens
    }

    /** The values that screen `j` must read. */
    function Changes(j: nat): map<nat, CARD32>
      requires f0.Known? ==> j < |f0.ids|
      requires f1.Known? ==> j < |f1.ids|
      requires f2.Known? ==> j < |f2.ids|
    {
      Put(Put(Put(map[], b0, f0, j), b1, f1, j), b2, f2, j)
    }

    static function Put(m: map<nat, CARD32>, b: nat, f: Found, j: nat): map<nat, CARD32>
      requires f.Known? ==> j < |f.ids|
    {
      if f.Known? then m[b := f.ids[j]] else m
    }
  }

  predicate AllOfLength(table: map<CARD32, Ids>, screens: nat) {
    forall id :: id in table ==> |table[id]| == screens
  }

  lemma NamedFits(mask: nat, list: seq<CARD32>, b: nat, none: set<CARD32>, table: map<CARD32, Ids>, screens: nat)
    requires |list| == Ones(mask) && AllOfLength(table, screens)
    ensures Slots.Fit(mask, b, Named(mask, list, b, none, table), screens)
  {
    OffsetReads(mask, list, b);
  }

  method PutId(list: array<CARD32>, mask: nat, b: nat, f: Found, j: nat, ghost original: seq<CARD32>,
               ghost changes: map<nat, CARD32>)
    requires list.Length == |original| == Ones(mask)
    requires f.Known? ==> Has(mask, b) && j < |f.ids|
    requires Rewritten(mask, list[..], original, changes)
    modifies list
    ensures Rewritten(mask, list[..], original, Slots.Put(changes, b, f, j))
  {
    if f.Known? {
      RewriteOne(mask, list[..], original, changes, b, f.ids[j]);
      ghost var before := list[..];
      hide Rewritten, Ones, Has, Offset;
      list[Offset(mask, b)] := f.ids[j];
      assert list[..] == before[Offset(mask, b) := f.ids[j]];
    }
  }

  lemma EmptyRewrite(mask: nat, original: seq<CARD32>)
    requires |original| == Ones(mask)
    ensures Rewritten(mask, original, original, map[])
  {
  }

  /** Writing the identifiers of one screen over those of another leaves only the new ones. */
  lemma Overwrites(s: Slots, i: nat, j: nat, mask: nat, screens: nat)
    requires s.Fits(mask, screens) && i < screens && j < screens
    ensures Slots.Put(Slots.Put(Slots.Put(s.Changes(i), s.b0, s.f0, j), s.b1, s.f1, j), s.b2, s.f2, j) == s.Changes(j)
  {
  }

  /** Write a screen's identifiers into the list; `last` is the screen written before, if any. */
  method WriteIds(list: array<CARD32>, mask: nat, s: Slots, j: nat, screens: nat, ghost original: seq<CARD32>,
                  ghost last: Option<nat>)
    requires list.Length == |original| == Ones(mask) && s.Fits(mask, screens) && j < screens
    requires last.Some? ==> last.value < screens
    requires Rewritten(mask, list[..], original, if last.Some? then s.Changes(last.value) else map[])
    modifies list
    ensures Rewritten(mask, list[..], original, s.Changes(j))
  {
    ghost var changes := if last.Some? then s.Changes(last.value) else map[];
    if last.Some? {
      Overwrites(s, last.value, j, mask, screens);
    }
    hide Rewritten, Ones, Has;
    PutId(list, mask, s.b0, s.f0, j, original, changes);
    changes := Slots.Put(changes, s.b0, s.f0, j);
    PutId(list, mask, s.b1, s.f1, j, original, changes);
    changes := Slots.Put(changes, s.b1, s.f1, j);
    PutId(list, mask, s.b2, s.f2, j, original, changes);
  }

  // ---- The requests ----

  datatype Status = Success | Failed | BadLength | BadWindow | BadPixmap | BadColor | BadGC | BadMatch

  /** A request as one screen receives it. */
  datatype Sent = Sent(screen: nat, id: CARD32, values: seq<CARD32>)

  /** Screen `j` is sent its own identifier and its own values, and otherwise what the client gave. */
  ghost predicate SentRight(mask: nat, sent: Sent, j: nat, ids: Ids, original: seq<CARD32>, changes: map<nat, CARD32>)
    requires |original| == Ones(mask)
  {
    && sent.screen == j < |ids| && sent.id == ids[j]
    && |sent.values| == Ones(mask) && Rewritten(mask, sent.values, original, changes)
  }

  /** The screens from the last down are each sent the right request. */
  ghost predicate SentBackward(mask: nat, sent: seq<Sent>, ids: Ids, original: seq<CARD32>, s: Slots)
    requires |original| == Ones(mask) && s.Fits(mask, |ids|)
  {
    && |sent| <= |ids|
    && forall k :: 0 <= k < |sent| ==>
         SentRight(mask, sent[k], |ids| - 1 - k, ids, original, s.Changes(|ids| - 1 - k))
  }

  lemma OneMoreSent(mask: nat, sent: seq<Sent>, next: Sent, ids: Ids, original: seq<CARD32>, s: Slots)
    requires |original| == Ones(mask) && s.Fits(mask, |ids|)
    requires SentBackward(mask, sent, ids, original, s) && |sent| < |ids|
    requires SentRight(mask, next, |ids| - 1 - |sent|, ids, original, s.Changes(|ids| - 1 - |sent|))
    ensures SentBackward(mask, sent + [next], ids, original, s)
  {
  }

  /** The loop over the screens, last to first; with `stops` it ends at the first failure. */
  method SendBackward(mask: nat, list: array<CARD32>, s: Slots, ids: Ids, outcomes: seq<bool>, stops: bool)
    returns (success: bool, sent: seq<Sent>)
    requires list.Length == Ones(mask) && |ids| == |outcomes| > 0 && s.Fits(mask, |ids|)
    modifies list
    ensures SentBackward(mask, sent, ids, old(list[..]), s) && |sent| > 0
    ensures success == outcomes[|ids| - |sent|]
    ensures if stops then forall j :: |ids| - |sent| < j < |ids| ==> outcomes[j] else |sent| == |ids|
    ensures success ==> |sent| == |ids|
  {
    ghost var original := list[..];
    ghost var last: Option<nat> := None;
    sent, success := [], true;
    var j: nat := |ids|;
    hide Rewritten, Ones, Slots.Fits, Slots.Changes;
    EmptyRewrite(mask, original);
    while j > 0
      invariant j <= |ids| && |sent| == |ids| - j
      invariant last.Some? ==> last.value < |ids|
      invariant Rewritten(mask, list[..], original, if last.Some? then s.Changes(last.value) else map[])
      invariant SentBackward(mask, sent, ids, original, s)
      invariant j < |ids| ==> success == outcomes[j]
      invariant stops ==> forall i :: j <= i < |ids| ==> outcomes[i]
    {
      j := j - 1;
      WriteIds(list, mask, s, j, |ids|, original, last);
      last := Some(j);
      OneMoreSent(mask, sent, Sent(j, ids[j], list[..]), ids, original, s);
      sent := sent + [Sent(j, ids[j], list[..])];
      success := outcomes[j];
      if stops && !success {
        break;
      }
    }
  }

  const CW_BACK_PIXMAP: nat := 0
  const CW_BORDER_PIXMAP: nat := 2
  const CW_COLORMAP: nat := 13
  const PARENT_RELATIVE: CARD32 := 1

  /** The attributes an InputOnly window may be given: win gravity, override redirect, the two event masks, cursor. */
  const INPUT_ONLY_LEGAL: set<nat> := {5, 9, 11, 12, 14}

  predicate OnlyLegalForInput(mask: nat) {
    forall b: nat :: b < 32 && Has(mask, b) ==> b in INPUT_ONLY_LEGAL
  }

  function WindowSlots(mask: nat, list: seq<CARD32>, pixmaps: map<CARD32, Ids>, colormaps: map<CARD32, Ids>): Slots
    requires |list| == Ones(mask)
  {
    Slots(CW_BACK_PIXMAP, Named(mask, list, CW_BACK_PIXMAP, {0, PARENT_RELATIVE}, pixmaps),
          CW_BORDER_PIXMAP, Named(mask, list, CW_BORDER_PIXMAP, {0}, pixmaps),
          CW_COLORMAP, Named(mask, list, CW_COLORMAP, {0}, colormaps))
  }

  /** A value that names a resource of the table: its bit is given and it is none of those that name nothing. */
  predicate Names(mask: nat, list: seq<CARD32>, b: nat, none: set<CARD32>)
    requires |list| == Ones(mask)
  {
    Value(mask, list, b).Some? && Value(mask, list, b).value !in none
  }

  /** What a screen reads: its own pixmaps for background and border, unless they are 0 or, for the background,
    ParentRelative, its own colormap unless it is 0, and nothing else of its own. */
  lemma WindowChanges(mask: nat, list: seq<CARD32>, pixmaps: map<CARD32, Ids>, colormaps: map<CARD32, Ids>,
                      screens: nat, j: nat)
    requires |list| == Ones(mask) && AllOfLength(pixmaps, screens) && AllOfLength(colormaps, screens) && j < screens
    ensures var s := WindowSlots(mask, list, pixmaps, colormaps);
      && s.Fits(mask, screens)
      && (s.f0.Unknown? <==> Names(mask, list, 0, {0, 1}) && Value(mask, list, 0).value !in pixmaps)
      && (s.f1.Unknown? <==> Names(mask, list, 2, {0}) && Value(mask, list, 2).value !in pixmaps)
      && (s.f2.Unknown? <==> Names(mask, list, 13, {0}) && Value(mask, list, 13).value !in colormaps)
      && (forall b :: b in s.Changes(j) <==>
            || (b == 0 && Names(mask, list, b, {0, 1}) && Value(mask, list, b).value in pixmaps)
            || (b == 2 && Names(mask, list, b, {0}) && Value(mask, list, b).value in pixmaps)
            || (b == 13 && Names(mask, list, b, {0}) && Value(mask, list, b).value in colormaps))
      && (forall b :: b in s.Changes(j) ==>
            s.Changes(j)[b] == (if b == 13 then colormaps else pixmaps)[Value(mask, list, b).value][j])
  {
    NamedFits(mask, list, CW_BACK_PIXMAP, {0, PARENT_RELATIVE}, pixmaps, screens);
    NamedFits(mask, list, CW_BORDER_PIXMAP, {0}, pixmaps, screens);
    NamedFits(mask, list, CW_COLORMAP, {0}, colormaps, screens);
    hide Value, Has, Ones;
  }

  /** No bit of the mask below 32 but win gravity, override redirect, the two event masks and the cursor. */
  ghost predicate NoOtherBits(mask: nat) {
    forall b: nat :: b < 32 && Has(mask, b) ==> b == 5 || b == 9 || b == 11 || b == 12 || b == 14
  }

  /** Those are the bits an InputOnly window may be given. */
  lemma LegalBits(mask: nat)
    ensures OnlyLegalForInput(mask) <==> NoOtherBits(mask)
  {
    if OnlyLegalForInput(mask) {
      forall b: nat | b < 32 && Has(mask, b)
        ensures b == 5 || b == 9 || b == 11 || b == 12 || b == 14
      {
        assert b in INPUT_ONLY_LEGAL;
      }
    }
    if NoOtherBits(mask) {
      forall b: nat | b < 32 && Has(mask, b)
        ensures b in INPUT_ONLY_LEGAL
      {
      }
    }
  }

  /**
   * ChangeWindowAttributes: after the checks, every screen is sent the list with its own background, border and
   * colormap identifiers and all other values as the client gave them.
   */
  method ChangeWindowAttributes(mask: nat, list: array<CARD32>, window: CARD32, inputOnly: bool,
                                windows: map<CARD32, Ids>, pixmaps: map<CARD32, Ids>, colormaps: map<CARD32, Ids>,
                                outcomes: seq<bool>)
    returns (status: Status, sent: seq<Sent>)
    requires |outcomes| > 0 && AllOfLength(windows, |outcomes|)
    requires AllOfLength(pixmaps, |outcomes|) && AllOfLength(colormaps, |outcomes|)
    modifies list
    ensures status == BadLength <==> list.Length != Ones(mask)
    ensures list.Length == Ones(mask) ==>
      var s := WindowSlots(mask, old(list[..]), pixmaps, colormaps);
      var known := window in windows && !(inputOnly && !OnlyLegalForInput(mask));
      && (status in {Success, Failed} <==> known && !s.f0.Unknown? && !s.f1.Unknown? && !s.f2.Unknown?)
      && (status == BadWindow <==> window !in windows)
      && (status == BadMatch <==> window in windows && inputOnly && !OnlyLegalForInput(mask))
      && (status == BadPixmap <==> known && (s.f0.Unknown? || s.f1.Unknown?))
      && (status == BadColor <==> known && !s.f0.Unknown? && !s.f1.Unknown? && s.f2.Unknown?)
      && (status in {Success, Failed} ==>
            s.Fits(mask, |outcomes|) && |sent| == |outcomes| && (status == Success <==> outcomes[0])
            && SentBackward(mask, sent, windows[window], old(list[..]), s))
    ensures status !in {Success, Failed} ==> sent == [] && list[..] == old(list[..])
  {
    sent := [];
    if Ones(mask) != list.Length {
      return BadLength, [];
    }
    if window !in windows {
      return BadWindow, [];
    }
    if inputOnly && !OnlyLegalForInput(mask) {
      return BadMatch, [];
    }
    hide Ones, Has, OnlyLegalForInput, Named, SentBackward;
    var back := LookUp(mask, list, CW_BACK_PIXMAP, {0, PARENT_RELATIVE}, pixmaps);
    if back.Unknown? {
      return BadPixmap, [];
    }
    var border := LookUp(mask, list, CW_BORDER_PIXMAP, {0}, pixmaps);
    if border.Unknown? {
      return BadPixmap, [];
    }
    var colormap := LookUp(mask, list, CW_COLORMAP, {0}, colormaps);
    if colormap.Unknown? {
      return BadColor, [];
    }
    NamedFits(mask, list[..], CW_BACK_PIXMAP, {0, PARENT_RELATIVE}, pixmaps, |outcomes|);
    NamedFits(mask, list[..], CW_BORDER_PIXMAP, {0}, pixmaps, |outcomes|);
    NamedFits(mask, list[..], CW_COLORMAP, {0}, colormaps, |outcomes|);
    var success;
    success, sent := SendBackward(mask, list, WindowSlots(mask, list[..], pixmaps, colormaps), windows[window],
                                  outcomes, false);
    status := if success then Success else Failed;
  }

  const GC_TILE: nat := 10
  const GC_STIPPLE: nat := 11
  const GC_CLIP_MASK: nat := 19

  function GcSlots(mask: nat, list: seq<CARD32>, pixmaps: map<CARD32, Ids>): Slots
    requires |list| == Ones(mask)
  {
    Slots(GC_TILE, Named(mask, list, GC_TILE, {0}, pixmaps), GC_STIPPLE, Named(mask, list, GC_STIPPLE, {0}, pixmaps),
          GC_CLIP_MASK, Named(mask, list, GC_CLIP_MASK, {0}, pixmaps))
  }

  /** What a screen reads: its own pixmaps for tile, stipple and clip mask, unless they are 0, and nothing else of its own. */
  lemma GcChanges(mask: nat, list: seq<CARD32>, pixmaps: map<CARD32, Ids>, screens: nat, j: nat)
    requires |list| == Ones(mask) && AllOfLength(pixmaps, screens) && j < screens
    ensures var s := GcSlots(mask, list, pixmaps);
      && s.Fits(mask, screens)
      && (s.f0.Unknown? || s.f1.Unknown? || s.f2.Unknown? <==>
            exists b :: b in {10, 11, 19} && Names(mask, list, b, {0}) && Value(mask, list, b).value !in pixmaps)
      && (forall b :: b in s.Changes(j) <==>
            b in {10, 11, 19} && Names(mask, list, b, {0}) && Value(mask, list, b).value in pixmaps)
      && (forall b :: b in s.Changes(j) ==> s.Changes(j)[b] == pixmaps[Value(mask, list, b).value][j])
  {
    NamedFits(mask, list, GC_TILE, {0}, pixmaps, screens);
    NamedFits(mask, list, GC_STIPPLE, {0}, pixmaps, screens);
    NamedFits(mask, list, GC_CLIP_MASK, {0}, pixmaps, screens);
    hide Value, Has, Ones;
    var s := GcSlots(mask, list, pixmaps);
    assert s.f0.Unknown? <==> Names(mask, list, 10, {0}) && Value(mask, list, 10).value !in pixmaps;
    assert s.f1.Unknown? <==> Names(mask, list, 11, {0}) && Value(mask, list, 11).value !in pixmaps;
    assert s.f2.Unknown? <==> Names(mask, list, 19, {0}) && Value(mask, list, 19).value !in pixmaps;
  }

  /** ChangeGC: each screen is sent its own tile, stipple and clip mask, until one fails. */
  method ChangeGC(mask: nat, list: array<CARD32>, gc: CARD32, gcs: map<CARD32, Ids>, pixmaps: map<CARD32, Ids>,
                  outcomes: seq<bool>)
    returns (status: Status, sent: seq<Sent>)
    requires |outcomes| > 0 && AllOfLength(gcs, |outcomes|) && AllOfLength(pixmaps, |outcomes|)
    modifies list
    ensures status == BadLength <==> list.Length != Ones(mask)
    ensures list.Length == Ones(mask) ==>
      var s := GcSlots(mask, old(list[..]), pixmaps);
      && (status == BadGC <==> gc !in gcs)
      && (status == BadPixmap <==> gc in gcs && (s.f0.Unknown? || s.f1.Unknown? || s.f2.Unknown?))
      && (status in {Success, Failed} ==>
            && s.Fits(mask, |outcomes|) && SentBackward(mask, sent, gcs[gc], old(list[..]), s) && |sent| > 0
            && (status == Success <==> outcomes[|outcomes| - |sent|])
            && (forall j :: |outcomes| - |sent| < j < |outcomes| ==> outcomes[j])
            && (|sent| < |outcomes| ==> !outcomes[|outcomes| - |sent|]))
    ensures status in {Success, Failed, BadLength, BadGC, BadPixmap}
    ensures status !in {Success, Failed} ==> sent == [] && list[..] == old(list[..])
  {
    sent := [];
    if Ones(mask) != list.Length {
      return BadLength, [];
    }
    if gc !in gcs {
      return BadGC, [];
    }
    hide Ones, Has, Named, SentBackward;
    var tile := LookUp(mask, list, GC_TILE, {0}, pixmaps);
    if tile.Unknown? {
      return BadPixmap, [];
    }
    var stipple := LookUp(mask, list, GC_STIPPLE, {0}, pixmaps);
    if stipple.Unknown? {
      return BadPixmap, [];
    }
    var clip := LookUp(mask, list, GC_CLIP_MASK, {0}, pixmaps);
    if clip.Unknown? {
      return BadPixmap, [];
    }
    NamedFits(mask, list[..], GC_TILE, {0}, pixmaps, |outcomes|);
    NamedFits(mask, list[..], GC_STIPPLE, {0}, pixmaps, |outcomes|);
    NamedFits(mask, list[..], GC_CLIP_MASK, {0}, pixmaps, |outcomes|);
    var success;
    success, sent := SendBackward(mask, list, GcSlots(mask, list[..], pixmaps), gcs[gc], outcomes, true);
    status := if success then Success else Failed;
  }

  // ---- ConfigureWindow ----

  const CW_X: nat := 0
  const CW_Y: nat := 1
  const CW_SIBLING: nat := 5

  function Wrap32(x: int): CARD32 {
    x % 0x1_0000_0000
  }

  /** Where a screen lies in the logical space. */
  datatype Origin = Origin(x: int, y: int)

  /** The position given, when it must be made relative to each screen, and the sibling. */
  datatype Moves = Moves(x: Option<CARD32>, y: Option<CARD32>, sibling: Found)
  {
    predicate Fits(mask: nat, screens: nat) {
      && (x.Some? ==> Has(mask, CW_X)) && (y.Some? ==> Has(mask, CW_Y)) && Slots.Fit(mask, CW_SIBLING, sibling, screens)
    }

    function Changes(origin: Origin, j: nat): map<nat, CARD32>
      requires sibling.Known? ==> j < |sibling.ids|
    {
      PutY(PutX(Slots.Put(map[], CW_SIBLING, sibling, j), origin), origin)
    }

    function PutX(m: map<nat, CARD32>, origin: Origin): map<nat, CARD32> {
      if x.Some? then m[CW_X := Wrap32(x.value - origin.x)] else m
    }

    function PutY(m: map<nat, CARD32>, origin: Origin): map<nat, CARD32> {
      if y.Some? then m[CW_Y := Wrap32(y.value - origin.y)] else m
    }
  }

  /** What the client asked for, read from its list. */
  function MovesOf(mask: nat, list: seq<CARD32>, topLevel: bool, windows: map<CARD32, Ids>): Moves
    requires |list| == Ones(mask)
  {
    Moves(if topLevel then Value(mask, list, CW_X) else None, if topLevel then Value(mask, list, CW_Y) else None,
          Named(mask, list, CW_SIBLING, {0}, windows))
  }

  lemma MovesFit(mask: nat, list: seq<CARD32>, topLevel: bool, windows: map<CARD32, Ids>, screens: nat)
    requires |list| == Ones(mask) && AllOfLength(windows, screens)
    ensures MovesOf(mask, list, topLevel, windows).Fits(mask, screens)
  {
    OffsetReads(mask, list, CW_X);
    OffsetReads(mask, list, CW_Y);
    NamedFits(mask, list, CW_SIBLING, {0}, windows, screens);
  }

  /** What a screen reads: its own window for the sibling, unless that is 0, and for a top-level window the position minus
    its own origin in 32 bits. */
  lemma MoveChanges(mask: nat, list: seq<CARD32>, topLevel: bool, windows: map<CARD32, Ids>, screens: nat,
                    origin: Origin, j: nat)
    requires |list| == Ones(mask) && AllOfLength(windows, screens) && j < screens
    ensures var m := MovesOf(mask, list, topLevel, windows);
      && m.Fits(mask, screens)
      && (m.sibling.Unknown? <==> Names(mask, list, 5, {0}) && Value(mask, list, 5).value !in windows)
      && (forall b :: b in m.Changes(origin, j) <==>
            || (b == 5 && Names(mask, list, b, {0}) && Value(mask, list, b).value in windows)
            || (b in {0, 1} && topLevel && Value(mask, list, b).Some?))
      && (5 in m.Changes(origin, j) ==> m.Changes(origin, j)[5] == windows[Value(mask, list, 5).value][j])
      && (0 in m.Changes(origin, j) ==>
            m.Changes(origin, j)[0] == (Value(mask, list, 0).value - origin.x) % 0x1_0000_0000)
      && (1 in m.Changes(origin, j) ==>
            m.Changes(origin, j)[1] == (Value(mask, list, 1).value - origin.y) % 0x1_0000_0000)
  {
    hide Value, Has, Ones, Wrap32, Moves.Changes;
    var m := MovesOf(mask, list, topLevel, windows);
    MovesFit(mask, list, topLevel, windows, screens);
    PutMoves(m, origin, j);
    if m.x.Some? { Wrapped(m.x.value - origin.x); }
    if m.y.Some? { Wrapped(m.y.value - origin.y); }
  }

  lemma Wrapped(x: int)
    ensures Wrap32(x) == x % 0x1_0000_0000
  {
  }

  lemma PutMoves(m: Moves, origin: Origin, j: nat)
    requires m.sibling.Known? ==> j < |m.sibling.ids|
    ensures forall b :: b in m.Changes(origin, j) <==>
      (b == 5 && m.sibling.Known?) || (b == 0 && m.x.Some?) || (b == 1 && m.y.Some?)
    ensures m.sibling.Known? ==> m.Changes(origin, j)[5] == m.sibling.ids[j]
    ensures m.x.Some? ==> m.Changes(origin, j)[0] == Wrap32(m.x.value - origin.x)
    ensures m.y.Some? ==> m.Changes(origin, j)[1] == Wrap32(m.y.value - origin.y)
  {
    hide Wrap32;
  }

  /** The offsets worked out by hand for x and y. */
  lemma HandOffsets(mask: nat)
    ensures Offset(mask, CW_X) == 0
    ensures Offset(mask, CW_Y) == if Has(mask, CW_X) then 1 else 0
  {
    OffsetStep(mask, 1);
  }

  lemma MovesOverwrite(m: Moves, was: Origin, i: nat, now: Origin, j: nat, mask: nat, screens: nat)
    requires m.Fits(mask, screens) && i < screens && j < screens
    ensures m.PutY(m.PutX(Slots.Put(m.Changes(was, i), CW_SIBLING, m.sibling, j), now), now) == m.Changes(now, j)
  {
    hide Wrap32;
  }

  /** Write one word of the list: the value of one bit. */
  method PutWord(list: array<CARD32>, mask: nat, b: nat, offset: nat, v: CARD32, ghost original: seq<CARD32>,
                 ghost changes: map<nat, CARD32>)
    requires list.Length == |original| == Ones(mask)
    requires Has(mask, b) && offset == Offset(mask, b) < list.Length
    requires Rewritten(mask, list[..], original, changes)
    modifies list
    ensures Rewritten(mask, list[..], original, changes[b := v])
  {
    RewriteOne(mask, list[..], original, changes, b, v);
    ghost var before := list[..];
    hide Rewritten, Ones, Has, Offset;
    list[offset] := v;
    assert list[..] == before[offset := v];
  }

  /** The screens from the first up are each sent the right request. */
  ghost predicate SentForward(mask: nat, sent: seq<Sent>, ids: Ids, original: seq<CARD32>, m: Moves, origins: seq<Origin>)
    requires |original| == Ones(mask) && m.Fits(mask, |ids|) && |origins| == |ids|
  {
    && |sent| <= |ids|
    && forall j :: 0 <= j < |sent| ==> SentRight(mask, sent[j], j, ids, original, m.Changes(origins[j], j))
  }

  lemma OneMoreForward(mask: nat, sent: seq<Sent>, next: Sent, ids: Ids, original: seq<CARD32>, m: Moves,
                       origins: seq<Origin>)
    requires |original| == Ones(mask) && m.Fits(mask, |ids|) && |origins| == |ids|
    requires SentForward(mask, sent, ids, original, m, origins) && |sent| < |ids|
    requires SentRight(mask, next, |sent|, ids, original, m.Changes(origins[|sent|], |sent|))
    ensures SentForward(mask, sent + [next], ids, original, m, origins)
  {
  }

  /** One screen's sibling and position, written over those of the screen before. */
  method WriteMoves(list: array<CARD32>, mask: nat, m: Moves, xOffset: int, yOffset: int, origins: seq<Origin>, j: nat,
                    ghost original: seq<CARD32>)
    requires list.Length == |original| == Ones(mask) && m.Fits(mask, |origins|) && j < |origins|
    requires xOffset == if m.x.Some? then Offset(mask, CW_X) else -1
    requires yOffset == if m.y.Some? then Offset(mask, CW_Y) else -1
    requires Rewritten(mask, list[..], original, if j > 0 then m.Changes(origins[j - 1], j - 1) else map[])
    modifies list
    ensures Rewritten(mask, list[..], original, m.Changes(origins[j], j))
  {
    ghost var changes: map<nat, CARD32> := if j > 0 then m.Changes(origins[j - 1], j - 1) else map[];
    if j > 0 {
      MovesOverwrite(m, origins[j - 1], j - 1, origins[j], j, mask, |origins|);
    }
    OffsetReads(mask, original, CW_X);
    OffsetReads(mask, original, CW_Y);
    hide Rewritten, Ones, Has, Offset, Wrap32;
    PutId(list, mask, CW_SIBLING, m.sibling, j, original, changes);
    changes := Slots.Put(changes, CW_SIBLING, m.sibling, j);
    if xOffset >= 0 {
      PutWord(list, mask, CW_X, xOffset, Wrap32(m.x.value - origins[j].x), original, changes);
    }
    changes := m.PutX(changes, origins[j]);
    if yOffset >= 0 {
      PutWord(list, mask, CW_Y, yOffset, Wrap32(m.y.value - origins[j].y), original, changes);
    }
  }

  /**
   * ConfigureWindow: every screen is sent the sibling's identifier there and, for a top-level window, the position
   * relative to its own origin; all other values are as the client gave them.
   */
  method ConfigureWindow(mask: nat, list: array<CARD32>, window: CARD32, topLevel: bool, windows: map<CARD32, Ids>,
                         origins: seq<Origin>, outcomes: seq<bool>)
    returns (status: Status, sent: seq<Sent>)
    requires |outcomes| == |origins| > 0 && AllOfLength(windows, |origins|)
    modifies list
    ensures status in {Success, Failed, BadLength, BadWindow}
    ensures status == BadLength <==> list.Length != Ones(mask)
    ensures list.Length == Ones(mask) ==>
      var m := MovesOf(mask, old(list[..]), topLevel, windows);
      && (status == BadWindow <==> window !in windows || m.sibling.Unknown?)
      && (status in {Success, Failed} ==>
            && m.Fits(mask, |origins|) && SentForward(mask, sent, windows[window], old(list[..]), m, origins) && |sent| > 0
            && (status == Success <==> outcomes[|sent| - 1])
            && (forall j :: 0 <= j < |sent| - 1 ==> outcomes[j])
            && (|sent| < |origins| ==> !outcomes[|sent| - 1]))
    ensures status !in {Success, Failed} ==> sent == [] && list[..] == old(list[..])
  {
    sent := [];
    if Ones(mask) != list.Length {
      return BadLength, [];
    }
    if window !in windows {
      return BadWindow, [];
    }
    var sibling := LookUp(mask, list, CW_SIBLING, {0}, windows);
    if sibling.Unknown? {
      return BadWindow, [];
    }
    var xOffset, yOffset, x, y := -1, -1, None, None;
    ghost var original := list[..];
    OffsetReads(mask, original, CW_X);
    OffsetReads(mask, original, CW_Y);
    HandOffsets(mask);
    if topLevel {
      if Has(mask, CW_X) {
        xOffset := 0;
        x := Some(list[0]);
      }
      if Has(mask, CW_Y) {
        yOffset := if xOffset == -1 then 0 else 1;
        y := Some(list[yOffset]);
      }
    }
    var m := Moves(x, y, sibling);
    MovesFit(mask, original, topLevel, windows, |origins|);
    EmptyRewrite(mask, original);
    var success;
    success, sent := SendForward(mask, list, m, xOffset, yOffset, windows[window], origins, outcomes);
    status := if success then Success else Failed;
  }

  /** The loop over the screens, first to last, up to the first failure. */
  method SendForward(mask: nat, list: array<CARD32>, m: Moves, xOffset: int, yOffset: int, ids: Ids,
                     origins: seq<Origin>, outcomes: seq<bool>)
    returns (success: bool, sent: seq<Sent>)
    requires list.Length == Ones(mask) && |ids| == |origins| == |outcomes| > 0 && m.Fits(mask, |ids|)
    requires xOffset == if m.x.Some? then Offset(mask, CW_X) else -1
    requires yOffset == if m.y.Some? then Offset(mask, CW_Y) else -1
    modifies list
    ensures SentForward(mask, sent, ids, old(list[..]), m, origins) && |sent| > 0
    ensures success == outcomes[|sent| - 1] && (success ==> |sent| == |ids|)
    ensures forall j :: 0 <= j < |sent| - 1 ==> outcomes[j]
  {
    ghost var original := list[..];
    sent, success := [], true;
    EmptyRewrite(mask, original);
    hide Rewritten, Ones, Has, Offset, Wrap32, Moves.Fits, Moves.Changes;
    var j: nat := 0;
    while j < |ids|
      invariant j <= |ids| && |sent| == j
      invariant Rewritten(mask, list[..], original, if j > 0 then m.Changes(origins[j - 1], j - 1) else map[])
      invariant SentForward(mask, sent, ids, original, m, origins)
      invariant success && forall i :: 0 <= i < j ==> outcomes[i]
    {
      WriteMoves(list, mask, m, xOffset, yOffset, origins, j, original);
      OneMoreForward(mask, sent, Sent(j, ids[j], list[..]), ids, original, m, origins);
      sent := sent + [Sent(j, ids[j], list[..])];
      success := outcomes[j];
      if !success {
        return;
      }
      j := j + 1;
    }
  }
}
