/** camera/Graphic.java and the part of camera/GraphicOverlay.java it uses.
    Every Graphic shares one sorted map of icons to draw on the action bar,
    keyed by drawable resource id; a graphic clears its own entries, inserts
    new ones and paints itself valid exactly when the shared map is empty. */
module Graphics {
  import opened Actions
  import opened Geometry

  /** The concrete subclass of a Graphic, as compared by `getClass()`. */
  datatype GraphicClass = FaceGraphicClass | BackgroundGraphicClass | ShadowGraphicClass | VisibilityGraphicClass

  /** Color.GREEN and Color.RED as Java `int`s (0xFF00FF00 and 0xFFFF0000). */
  const VALID_COLOR: int := 0xFF00FF00 - 0x1_0000_0000
  const INVALID_COLOR: int := 0xFFFF0000 - 0x1_0000_0000

  function PaintFor(isValid: bool): int
  {
    if isValid then VALID_COLOR else INVALID_COLOR
  }

  /** What scaleX, scaleY, translateX and translateY read from the overlay:
      its width, its two scale factors and whether the camera faces front. */
  datatype ViewTransform = ViewTransform(width: int, widthScale: real, heightScale: real, frontFacing: bool) {
    function ScaleX(horizontal: real): real { horizontal * widthScale }
    function ScaleY(vertical: real): real { vertical * heightScale }

    /** A front camera mirrors the picture: the translated and the scaled
        coordinate add up to the overlay width. */
    function TranslateX(x: real): (r: real)
      ensures frontFacing ==> r + ScaleX(x) == width as real
      ensures !frontFacing ==> r == ScaleX(x)
    {
      if frontFacing then width as real - ScaleX(x) else ScaleX(x)
    }

    function TranslateY(y: real): real { ScaleY(y) }
  }

  /** GraphicOverlay: the set of graphics it draws and its camera mapping. */
  class Overlay {
    var graphics: set<Graphic>
    var view: ViewTransform

    constructor (view0: ViewTransform)
      ensures graphics == {} && view == view0
    {
      graphics := {};
      view := view0;
    }

    method Add(g: Graphic)
      modifies this
      ensures graphics == old(graphics) + {g} && view == old(view)
    {
      graphics := graphics + {g};
    }

    method Remove(g: Graphic)
      modifies this
      ensures graphics == old(graphics) - {g} && view == old(view)
    {
      graphics := graphics - {g};
    }
  }

  /** A key of the shared map: Graphic.BitmapMetaData. */
  datatype BitmapMetaData = BitmapMetaData(graphicClass: GraphicClass, id: DrawableId)

  /** BitmapMetaData.compareTo: Integer.compareTo on the ids, so the class
      plays no part in the order and two keys with one id are equal. */
  function CompareTo(a: BitmapMetaData, b: BitmapMetaData): (r: int)
    ensures r == 0 <==> a.id == b.id
    ensures r < 0 <==> a.id < b.id
    ensures -1 <= r <= 1
  {
    if a.id < b.id then -1 else if a.id == b.id then 0 else 1
  }

  /** The order is antisymmetric, as Comparable requires. */
  lemma CompareToAntisymmetric(a: BitmapMetaData, b: BitmapMetaData)
    ensures CompareTo(a, b) == -CompareTo(b, a)
  {
  }

  /** An Android drawable resource id; generated ids are positive. */
  type DrawableId = nat

  /** Because keys compare by id, the static TreeMap is a map from resource
      id to the class stored in the key that was inserted first. */
  type ActionMap = map<DrawableId, GraphicClass>

  /** The shared map after clearActions(k): exactly the entries of other
      classes remain, with their classes. */
  function ClearedOf(m: ActionMap, k: GraphicClass): (r: ActionMap)
    ensures forall id :: id in r <==> id in m && m[id] != k
    ensures forall id :: id in r ==> r[id] == m[id]
  {
    map id | id in m && m[id] != k :: m[id]
  }

  /** TreeMap.put of a key whose id is present keeps the old key object, so
      the entry keeps the class it already had. */
  function PutEntry(m: ActionMap, id: DrawableId, k: GraphicClass): (r: ActionMap)
    ensures r.Keys == m.Keys + {id}
    ensures forall x :: x in m ==> r[x] == m[x]
    ensures id !in m ==> r[id] == k
  {
    if id in m then m else m[id := k]
  }

  /** The puts of setBarActions, in list order. */
  function PutAll(m: ActionMap, ids: seq<DrawableId>, k: GraphicClass): ActionMap
    decreases |ids|
  {
    if ids == [] then m else PutEntry(PutAll(m, ids[..|ids| - 1], k), ids[|ids| - 1], k)
  }

  /** The drawable ids of a list of actions, looked up in an icon table. */
  function IconIds(icons: map<Action, DrawableId>, positions: seq<Action>): (ids: seq<DrawableId>)
    requires forall p :: p in positions ==> p in icons
    ensures |ids| == |positions|
    ensures forall i :: 0 <= i < |positions| ==> ids[i] == icons[positions[i]]
  {
    seq(|positions|, i requires 0 <= i < |positions| => icons[positions[i]])
  }

  /** The shared map after setBarActions(positions, ctx, k) on a graphic of
      class `own`. */
  function BarActions(m: ActionMap, own: GraphicClass, ids: seq<DrawableId>, k: GraphicClass): (r: ActionMap)
    ensures forall id :: id in r <==> (id in m && m[id] != own) || id in ids
    ensures forall id :: id in r ==> r[id] == if id in m && m[id] != own then m[id] else k
  {
    PutAllContents(ClearedOf(m, own), ids, k);
    PutAll(ClearedOf(m, own), ids, k)
  }

  /** After the puts the map holds the old ids and the inserted ids and
      nothing else; an old id keeps its class and a new one gets k. */
  lemma {:induction false} PutAllContents(m: ActionMap, ids: seq<DrawableId>, k: GraphicClass)
    ensures forall id :: id in PutAll(m, ids, k) <==> id in m || id in ids
    ensures forall id :: id in PutAll(m, ids, k) ==> PutAll(m, ids, k)[id] == if id in m then m[id] else k
    decreases |ids|
  {
    if ids != [] {
      var front := ids[..|ids| - 1];
      PutAllContents(m, front, k);
      assert ids == front + [ids[|ids| - 1]];
    }
  }

  /** The graphic is valid after setBarActions iff it asked for no icon and
      every icon already shown belonged to its own class: icons of other
      graphics keep it invalid. */
  lemma BarActionsEmptyIff(m: ActionMap, own: GraphicClass, ids: seq<DrawableId>, k: GraphicClass)
    ensures BarActions(m, own, ids, k) == map[] <==> ids == [] && forall id :: id in m ==> m[id] == own
  {
    var r := BarActions(m, own, ids, k);
    PutAllContents(ClearedOf(m, own), ids, k);
    if ids != [] {
      assert ids[0] in r;
    } else if exists id :: id in m && m[id] != own {
      var id :| id in m && m[id] != own;
      assert id in r;
    } else {
      forall id
        ensures id !in r
      {
      }
      assert r == map[];
    }
  }

  /** Calling setBarActions twice with the same positions and the graphic's
      own class leaves the map as the first call left it. */
  lemma BarActionsIdempotent(m: ActionMap, own: GraphicClass, ids: seq<DrawableId>)
    ensures BarActions(BarActions(m, own, ids, own), own, ids, own) == BarActions(m, own, ids, own)
  {
    var c := ClearedOf(m, own);
    var r := PutAll(c, ids, own);
    PutAllContents(c, ids, own);
    var c2 := ClearedOf(r, own);
    forall id
      ensures id in c2 <==> id in c
    {
      if id in c2 {
        assert id in c || id in ids;
      }
    }
    assert c2.Keys == c.Keys;
    assert forall id :: id in c2 ==> c2[id] == c[id];
    assert c2 == c;
  }

  /** Two actions with the same drawable (both eyes use one icon) produce a
      single entry: the second put finds the id and changes nothing. */
  lemma SharedIconCollapses(m: ActionMap, own: GraphicClass, icons: map<Action, DrawableId>, a: Action, b: Action, k: GraphicClass)
    requires a in icons && b in icons && icons[a] == icons[b]
    ensures BarActions(m, own, IconIds(icons, [a, b]), k) == BarActions(m, own, IconIds(icons, [a]), k)
  {
    var ids := IconIds(icons, [a, b]);
    assert ids[..1] == IconIds(icons, [a]);
    assert IconIds(icons, [a])[..0] == [];
  }

  /** An icon shown for another graphic keeps that graphic's class even if
      this graphic also asks for it, so this graphic's next clearActions does
      not remove it. */
  lemma OtherOwnerKeepsIcon(m: ActionMap, own: GraphicClass, ids: seq<DrawableId>, id: DrawableId)
    requires id in m && m[id] != own
    ensures id in ClearedOf(BarActions(m, own, ids, own), own)
    ensures BarActions(m, own, ids, own)[id] == m[id]
  {
    PutAllContents(ClearedOf(m, own), ids, own);
  }

  /** Placement of the i-th icon of drawActionsToBePerformed on a canvas of
      the given width: twelve icons per width, a fifth of an icon apart. */
  function IconRect(i: nat, canvasWidth: nat): (r: Rect)
    ensures r.Width() == canvasWidth / 12 && r.Height() == canvasWidth / 12
    ensures r.top == (canvasWidth / 12) / 5
  {
    var iconSize := canvasWidth / 12;
    var padding := iconSize / 5;
    Rect((i + 1) * padding + i * iconSize, padding, (i + 1) * padding + (i + 1) * iconSize, padding + iconSize)
  }

  /** Icons further along the bar start right of where earlier ones end, so
      no two icons overlap. */
  lemma {:induction false} IconsDoNotOverlap(i: nat, j: nat, canvasWidth: nat)
    requires i < j
    ensures IconRect(i, canvasWidth).right + (canvasWidth / 12) / 5 <= IconRect(j, canvasWidth).left
  {
    BarSpacing(i, j, canvasWidth / 12, (canvasWidth / 12) / 5);
  }

  /** With icons of size s and gaps p, icon j starts at least one gap after
      icon i ends. */
  lemma BarSpacing(i: nat, j: nat, s: nat, p: nat)
    requires i < j
    ensures (i + 1) * p + (i + 1) * s + p <= (j + 1) * p + j * s
  {
    MulSplit(i + 1, j - i, p);
    MulSplit(i + 1, j - i - 1, s);
    MulNonNegative(j - i - 1, p);
    MulNonNegative(j - i - 1, s);
    MulSplit(1, j - i - 1, p);
  }

  lemma MulSplit(a: nat, b: nat, c: nat)
    ensures (a + b) * c == a * c + b * c
  {
  }

  lemma MulNonNegative(a: nat, b: nat)
    ensures a * b >= 0
  {
  }

  class ActionRegistry {
    /** The static `actions` TreeMap of Graphic. */
    var actions: ActionMap

    constructor ()
      ensures actions == map[]
    {
      actions := map[];
    }
  }

  class Graphic {
    /** getClass() of the instance. */
    const kind: GraphicClass
    /** The static map, shared by every Graphic. */
    const registry: ActionRegistry
    const overlay: Overlay
    /** actionsMap: action to drawable id, filled by the subclass. */
    var actionsMap: map<Action, DrawableId>
    /** The colour of mPaint. */
    var paintColor: int

    constructor (kind0: GraphicClass, registry0: ActionRegistry, overlay0: Overlay, icons: map<Action, DrawableId>)
      ensures kind == kind0 && registry == registry0 && overlay == overlay0
      ensures actionsMap == icons && paintColor == INVALID_COLOR
    {
      kind := kind0;
      registry := registry0;
      overlay := overlay0;
      actionsMap := icons;
      paintColor := INVALID_COLOR;
    }

    /** clearActions(k): walks the shared map and removes the entries of
        class k. */
    method ClearActions(k: GraphicClass)
      modifies registry
      ensures registry.actions == ClearedOf(old(registry.actions), k)
    {
      ghost var m0 := registry.actions;
      var remaining := registry.actions.Keys;
      while remaining != {}
        invariant remaining <= m0.Keys
        invariant forall id :: id in registry.actions <==> id in m0 && (id in remaining || m0[id] != k)
        invariant forall id :: id in registry.actions ==> registry.actions[id] == m0[id]
        decreases remaining
      {
        var id := LeastOf(remaining);
        if registry.actions[id] == k {
          registry.actions := registry.actions - {id};
        }
        remaining := remaining - {id};
      }
      forall id
        ensures id in registry.actions <==> id in ClearedOf(m0, k)
      {
        assert id !in remaining;
      }
      assert registry.actions == ClearedOf(m0, k);
    }

    method SetIsValid(isValid: bool)
      modifies this
      ensures paintColor == PaintFor(isValid)
      ensures actionsMap == old(actionsMap)
    {
      paintColor := PaintFor(isValid);
    }

    /** setBarActions(positions, ctx, aClass): clears this graphic's class,
        puts one key per position tagged aClass, then paints the graphic
        valid iff the shared map is empty. Every position must have an icon
        (a missing one unboxes null in the source). */
    method SetBarActions(positions: seq<Action>, aClass: GraphicClass)
      requires forall p :: p in positions ==> p in actionsMap
      modifies this, registry
      ensures actionsMap == old(actionsMap)
      ensures registry.actions == BarActions(old(registry.actions), kind, IconIds(actionsMap, positions), aClass)
      ensures paintColor == PaintFor(registry.actions == map[])
    {
      ghost var m0 := registry.actions;
      ClearActions(kind);
      var ids := IconIds(actionsMap, positions);
      var i := 0;
      while i < |positions|
        invariant 0 <= i <= |positions|
        invariant actionsMap == old(actionsMap)
        invariant registry.actions == PutAll(ClearedOf(m0, kind), ids[..i], aClass)
      {
        assert ids[..i + 1][..i] == ids[..i];
        registry.actions := PutEntry(registry.actions, actionsMap[positions[i]], aClass);
        i := i + 1;
      }
      assert ids[..|positions|] == ids;
      SetIsValid(registry.actions == map[]);
    }

    /** drawActionsToBePerformed: the ids of the shared map in ascending
        order (the TreeMap's iteration order), the i-th at IconRect(i). */
    method DrawActionsToBePerformed(canvasWidth: nat) returns (placed: seq<(DrawableId, Rect)>)
      ensures |placed| == |registry.actions.Keys|
      ensures forall i :: 0 <= i < |placed| ==> placed[i].0 in registry.actions
      ensures forall id :: id in registry.actions ==> exists i :: 0 <= i < |placed| && placed[i].0 == id
      ensures forall i, j :: 0 <= i < j < |placed| ==> placed[i].0 < placed[j].0
      ensures forall i :: 0 <= i < |placed| ==> placed[i].1 == IconRect(i, canvasWidth)
    {
      var ids := AscendingIds(registry.actions.Keys);
      placed := seq(|ids|, i requires 0 <= i < |ids| => (ids[i], IconRect(i, canvasWidth)));
      assert forall i :: 0 <= i < |placed| ==> placed[i].0 == ids[i];
      forall id | id in registry.actions
        ensures exists i :: 0 <= i < |placed| && placed[i].0 == id
      {
        var i :| 0 <= i < |ids| && ids[i] == id;
        assert placed[i].0 == id;
      }
    }
  }

  /** The TreeMap's key order: the ids of a set, smallest first. */
  method AscendingIds(keys: set<DrawableId>) returns (ids: seq<DrawableId>)
    ensures |ids| == |keys|
    ensures forall i :: 0 <= i < |ids| ==> ids[i] in keys
    ensures forall id :: id in keys ==> id in ids
    ensures forall i, j :: 0 <= i < j < |ids| ==> ids[i] < ids[j]
  {
    var remaining := keys;
    ids := [];
    while remaining != {}
      invariant AscendingPrefix(keys, ids, remaining)
      decreases remaining
    {
      var id := LeastOf(remaining);
      AscendingStep(keys, ids, remaining, id);
      ids := ids + [id];
      remaining := remaining - {id};
    }
  }

  /** ids lists, in ascending order, the keys that are not in remaining,
      all smaller than those that are. */
  ghost predicate AscendingPrefix(keys: set<DrawableId>, ids: seq<DrawableId>, remaining: set<DrawableId>)
  {
    remaining <= keys &&
    |ids| + |remaining| == |keys| &&
    (forall i :: 0 <= i < |ids| ==> ids[i] in keys && ids[i] !in remaining) &&
    (forall id :: id in keys ==> id in remaining || id in ids) &&
    (forall i, j :: 0 <= i < j < |ids| ==> ids[i] < ids[j]) &&
    (|ids| > 0 ==> forall id :: id in remaining ==> ids[|ids| - 1] < id)
  }

  /** Moving the least remaining key to the end of ids keeps the prefix
      ascending. */
  lemma AscendingStep(keys: set<DrawableId>, ids: seq<DrawableId>, remaining: set<DrawableId>, id: DrawableId)
    requires AscendingPrefix(keys, ids, remaining) && remaining != {} && id == Least(remaining)
    ensures AscendingPrefix(keys, ids + [id], remaining - {id})
  {
    var ids' := ids + [id];
    assert forall i :: 0 <= i < |ids| ==> ids'[i] == ids[i];
    assert forall y :: y in remaining - {id} ==> id < y;
  }

  /** The least element of a non-empty finite set of ids. */
  ghost function Least(s: set<DrawableId>): (m: DrawableId)
    requires s != {}
    ensures m in s
    ensures forall y :: y in s ==> m <= y
    decreases |s|
  {
    var x :| x in s;
    var rest := s - {x};
    assert forall y :: y in s ==> y == x || y in rest;
    if rest == {} then x
    else
      var r := Least(rest);
      if x < r then x else r
  }

  /** Picks the least id of a non-empty set. */
  method LeastOf(s: set<DrawableId>) returns (m: DrawableId)
    requires s != {}
    ensures m == Least(s)
  {
    ghost var l := Least(s);
    m :| m in s && forall y :: y in s ==> m <= y;
  }
}
