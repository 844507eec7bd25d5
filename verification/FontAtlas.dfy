/** Packing glyph bitmaps into texture atlases, and finding them again (font.c). */
module FontAtlas {
  import opened Wrappers
  import opened Bytes

  const WIDTH := 128
  const HEIGHT := 128

  datatype Frontier = Frontier(x: int, y: int, width: int, height: int)

  function Max(a: int, b: int): int {
    if a < b then b else a
  }

  datatype Slot = Slot(character: char, x: int, y: int, width: nat, height: nat)

  /** A rendered glyph: rows of equal width. */
  datatype Bitmap = Bitmap(width: nat, rows: seq<seq<byte>>) {
    ghost predicate Valid() {
      forall r :: 0 <= r < |rows| ==> |rows[r]| == width
    }

    /** With the spare pixel at its right and bottom it fits an empty atlas. */
    predicate Fits() {
      width + 1 <= WIDTH && |rows| + 1 <= HEIGHT
    }
  }

  function Origin(f: Frontier): (int, int) {
    (f.x, f.y)
  }

  predicate RoomAt(f: Frontier, width: nat, height: nat) {
    f.width >= width + 1 && f.height >= height + 1
  }

  predicate InBounds(s: Slot) {
    0 <= s.x && s.x + s.width + 1 <= WIDTH && 0 <= s.y && s.y + s.height + 1 <= HEIGHT
  }

  /** The slots' rectangles, each with its spare pixel, have nothing in common. */
  predicate Apart(s: Slot, t: Slot) {
    s.x + s.width + 1 <= t.x || t.x + t.width + 1 <= s.x || s.y + s.height + 1 <= t.y || t.y + t.height + 1 <= s.y
  }

  /** The address of pixel (x, y) in a texture. */
  function At(x: int, y: int): int {
    x + y * WIDTH
  }

  predicate Covers(s: Slot, x: int, y: int) {
    s.x <= x < s.x + s.width && s.y <= y < s.y + s.height
  }

  /** The pixels of an atlas texture show `b` at the place of slot `s`. */
  ghost predicate Shows(pixels: seq<byte>, s: Slot, b: Bitmap) {
    && |pixels| == WIDTH * HEIGHT && InBounds(s) && b.Valid() && s.width == b.width && s.height == |b.rows|
    && forall x, y {:trigger At(x, y)} :: Covers(s, x, y) ==> pixels[At(x, y)] == b.rows[y - s.y][x - s.x]
  }

  /** In numbers: row `r` of the bitmap lies from pixel (x, y + r) on, in a texture of 128 by 128 pixels, one row behind the other. */
  lemma ShowsInNumbers(pixels: seq<byte>, s: Slot, b: Bitmap)
    requires Shows(pixels, s, b)
    ensures |pixels| == 128 * 128 && |b.rows| == s.height && 0 <= s.x && s.x + s.width < 128 && 0 <= s.y && s.y + s.height < 128
    ensures forall r, c :: 0 <= r < s.height && 0 <= c < s.width ==> |b.rows[r]| == s.width && pixels[(s.y + r) * 128 + s.x + c] == b.rows[r][c]
  {
    forall r, c | 0 <= r < s.height && 0 <= c < s.width
      ensures pixels[(s.y + r) * 128 + s.x + c] == b.rows[r][c]
    {
      assert At(s.x + c, s.y + r) == (s.y + r) * 128 + s.x + c && Covers(s, s.x + c, s.y + r);
    }
  }

  /** Drawing into one slot does not disturb the picture in a slot apart from it. */
  lemma ShowsStill(before: seq<byte>, after: seq<byte>, s: Slot, b: Bitmap, drawn: Slot)
    requires Shows(before, s, b) && |after| == |before| && Apart(s, drawn)
    requires forall x, y {:trigger At(x, y)} :: 0 <= x < WIDTH && 0 <= y < HEIGHT && !Covers(drawn, x, y) ==> after[At(x, y)] == before[At(x, y)]
    ensures Shows(after, s, b)
  {
  }

  class Atlas {
    const buffer: array<byte>
    /** The source's buffer is allocated with the first glyph. */
    var hasBuffer: bool
    var glyphSlots: seq<Slot>
    var horizontal: Frontier
    var vertical: Frontier
    /** What has been uploaded to each slot. */
    ghost var bitmaps: seq<Bitmap>

    constructor ()
      ensures Valid() && !hasBuffer && glyphSlots == [] && fresh(buffer)
    {
      buffer := new byte[WIDTH * HEIGHT];
      hasBuffer, glyphSlots, bitmaps := false, [], [];
      horizontal, vertical := Frontier(0, 0, 0, 0), Frontier(0, 0, 0, 0);
    }

    /** The row of the horizontal frontier is filled up to it, and everything else lies above that row. */
    ghost predicate Packed()
      reads this`horizontal, this`vertical, this`glyphSlots
    {
      && horizontal.x + horizontal.width == WIDTH && horizontal.y + horizontal.height == HEIGHT
      && vertical.x == 0 && vertical.width == WIDTH && vertical.y + vertical.height == HEIGHT
      && 0 <= horizontal.x <= WIDTH && 0 <= horizontal.y <= vertical.y <= HEIGHT
      && forall i :: 0 <= i < |glyphSlots| ==> Placed(glyphSlots[i])
    }

    ghost predicate Placed(s: Slot)
      reads this`horizontal, this`vertical
    {
      && InBounds(s)
      && (s.y + s.height + 1 <= horizontal.y || (s.y == horizontal.y && s.x + s.width + 1 <= horizontal.x))
      && s.y + s.height + 1 <= vertical.y
    }

    /** One of the frontiers, or an atlas that is still empty, takes a glyph of this size. */
    predicate HasRoom(width: nat, height: nat)
      reads this`hasBuffer, this`horizontal, this`vertical
    {
      !hasBuffer || RoomAt(horizontal, width, height) || RoomAt(vertical, width, height)
    }

    ghost predicate Disjoint()
      reads this`glyphSlots
    {
      forall i, j :: 0 <= i < j < |glyphSlots| ==> Apart(glyphSlots[i], glyphSlots[j])
    }

    ghost predicate Valid()
      reads this, buffer
    {
      && buffer.Length == WIDTH * HEIGHT && |bitmaps| == |glyphSlots|
      && (hasBuffer ==> Packed()) && (!hasBuffer ==> glyphSlots == [])
      && Disjoint()
      && forall i :: 0 <= i < |glyphSlots| ==> Shows(buffer[..], glyphSlots[i], bitmaps[i])
    }

    /**
     * Takes the place for a glyph from one of the two frontiers, or from an empty atlas; the new slot is added for
     * `character`. The first glyph of an atlas is not checked against its size.
     */
    method AtlasAlloc(character: char, width: nat, height: nat) returns (found: bool, slot: Slot)
      requires hasBuffer ==> Packed()
      requires !hasBuffer ==> glyphSlots == []
      requires Disjoint()
      modifies this`hasBuffer, this`glyphSlots, this`horizontal, this`vertical
      ensures !found ==> hasBuffer == old(hasBuffer) == true && glyphSlots == old(glyphSlots) && Packed()
      ensures found ==> hasBuffer && glyphSlots == old(glyphSlots) + [slot]
                        && slot.character == character && slot.width == width && slot.height == height
      ensures found <==> old(HasRoom(width, height))
      ensures found <==> !old(hasBuffer) || (old(horizontal.width) > width && old(horizontal.height) > height)
                           || (old(vertical.width) > width && old(vertical.height) > height)
      ensures found ==> horizontal.x == slot.x + width + 1 && horizontal.y == slot.y
      ensures found ==> vertical.y == Max(if old(hasBuffer) then old(vertical.y) else 0, slot.y + height + 1)
      ensures found && old(hasBuffer) ==> (slot.x, slot.y) == if RoomAt(old(horizontal), width, height) then Origin(old(horizontal)) else Origin(old(vertical))
      ensures found && old(hasBuffer) ==> Packed() && Disjoint()
      ensures !old(hasBuffer) ==>
                && found && (InBounds(slot) <==> width + 1 <= WIDTH && height + 1 <= HEIGHT)
                && (InBounds(slot) <==> Packed()) && Disjoint()
    {
      hide Apart;
      ghost var was := glyphSlots;
      slot := Slot(character, 0, 0, width, height);
      if !hasBuffer {
        hasBuffer := true;
        horizontal := Frontier(width + 1, 0, WIDTH - (width + 1), HEIGHT);
        vertical := Frontier(0, height + 1, WIDTH, HEIGHT - (height + 1));
        glyphSlots := glyphSlots + [slot];
        assert Placed(slot) <==> InBounds(slot);
        assert Packed() ==> Placed(glyphSlots[0]);
        return true, slot;
      }
      if RoomAt(horizontal, width, height) {
        slot := slot.(x := horizontal.x, y := horizontal.y);
        AddDisjoint(slot);
        horizontal := horizontal.(width := horizontal.width - (width + 1), x := horizontal.x + width + 1);
        if horizontal.y + height + 1 > vertical.y {
          vertical := vertical.(y := horizontal.y + height + 1, height := HEIGHT - (horizontal.y + height + 1));
        }
        glyphSlots := glyphSlots + [slot];
        found := true;
      } else if RoomAt(vertical, width, height) {
        slot := slot.(x := vertical.x, y := vertical.y);
        AddDisjoint(slot);
        horizontal := Frontier(width + 1, vertical.y, WIDTH - (width + 1), vertical.height);
        vertical := vertical.(height := vertical.height - (height + 1), y := vertical.y + height + 1);
        glyphSlots := glyphSlots + [slot];
        found := true;
      } else {
        found := false;
      }
    }

    /** A rectangle at a frontier is apart from everything placed before. */
    lemma AddDisjoint(slot: Slot)
      requires Packed() && Disjoint()
      requires (slot.x == horizontal.x && slot.y == horizontal.y) || slot.y == vertical.y
      ensures forall i :: 0 <= i < |glyphSlots| ==> Apart(glyphSlots[i], slot)
    {
      forall i | 0 <= i < |glyphSlots|
        ensures Apart(glyphSlots[i], slot)
      {
        assert Placed(glyphSlots[i]);
      }
    }

    /** Copies a bitmap, row by row, to the place of its slot. */
    method AtlasCopyFT(slot: Slot, b: Bitmap)
      requires buffer.Length == WIDTH * HEIGHT && InBounds(slot)
      requires b.Valid() && slot.width == b.width && slot.height == |b.rows|
      modifies buffer
      ensures Shows(buffer[..], slot, b)
      ensures forall x, y {:trigger At(x, y)} :: 0 <= x < WIDTH && 0 <= y < HEIGHT && !Covers(slot, x, y) ==> buffer[At(x, y)] == old(buffer[At(x, y)])
    {
      for yOffset := 0 to |b.rows|
        invariant forall x, y {:trigger At(x, y)} :: Covers(slot, x, y) && y < slot.y + yOffset ==> buffer[At(x, y)] == b.rows[y - slot.y][x - slot.x]
        invariant forall x, y {:trigger At(x, y)} :: 0 <= x < WIDTH && 0 <= y < HEIGHT && !Covers(slot, x, y) ==> buffer[At(x, y)] == old(buffer[At(x, y)])
      {
        var row := At(slot.x, slot.y + yOffset);
        forall c | 0 <= c < b.width {
          buffer[row + c] := b.rows[yOffset][c];
        }
      }
    }

    /** The part of UploadGlyph that deals with one atlas. */
    method Upload(character: char, b: Bitmap) returns (found: bool, slot: Slot)
      requires Valid() && b.Valid() && b.Fits()
      modifies this, buffer
      ensures Valid()
      ensures found <==> old(HasRoom(b.width, |b.rows|))
      ensures found ==> glyphSlots == old(glyphSlots) + [slot] && bitmaps == old(bitmaps) + [b] && slot.character == character
      ensures !found ==> glyphSlots == old(glyphSlots) && bitmaps == old(bitmaps)
    {
      hide Packed, Apart, Shows;
      found, slot := AtlasAlloc(character, b.width, |b.rows|);
      if found {
        assert InBounds(slot) by { NewestInBounds(); }
        ghost var before := buffer[..];
        AtlasCopyFT(slot, b);
        bitmaps := bitmaps + [b];
        var n := |glyphSlots| - 1;
        forall i | 0 <= i < |glyphSlots|
          ensures Shows(buffer[..], glyphSlots[i], bitmaps[i])
        {
          if i < n {
            assert Apart(glyphSlots[i], glyphSlots[n]);
            ShowsStill(before, buffer[..], glyphSlots[i], bitmaps[i], slot);
          }
        }
      }
    }

    lemma NewestInBounds()
      requires Packed() && glyphSlots != []
      ensures InBounds(glyphSlots[|glyphSlots| - 1])
    {
      assert Placed(glyphSlots[|glyphSlots| - 1]);
    }
  }

  const MAX_ATLASES := 4

  /** What looking a glyph up gives: its atlas and slot, a glyph that the font has not got, or an error. */
  datatype Lookup = Found(atlas: nat, slot: Slot) | Missing | Failed

  /** No character has two slots, within an atlas or in two of them. */
  ghost predicate SingleSlots(atlases: seq<seq<Slot>>) {
    forall i, j, s, t ::
      (0 <= i < |atlases| && 0 <= j < |atlases| && 0 <= s < |atlases[i]| && 0 <= t < |atlases[j]|
       && atlases[i][s].character == atlases[j][t].character) ==> i == j && s == t
  }

  ghost predicate Cached(atlases: seq<seq<Slot>>, character: char) {
    exists i, s :: 0 <= i < |atlases| && 0 <= s < |atlases[i]| && atlases[i][s].character == character
  }

  /** One more slot at the end of atlas `k`; none at all if there is no such atlas. */
  function Extended<T>(atlases: seq<seq<T>>, k: nat, slot: T): seq<seq<T>> {
    if k < |atlases| then atlases[k := atlases[k] + [slot]] else atlases
  }

  lemma ExtendedKeepsSingleSlots(atlases: seq<seq<Slot>>, k: nat, slot: Slot)
    requires SingleSlots(atlases) && !Cached(atlases, slot.character)
    ensures SingleSlots(Extended(atlases, k, slot))
    ensures forall c :: Cached(Extended(atlases, k, slot), c) <==> Cached(atlases, c) || (k < |atlases| && c == slot.character)
  {
    var after := Extended(atlases, k, slot);
    assert forall i, s :: 0 <= i < |after| && 0 <= s < |after[i]| ==>
      if s < |atlases[i]| then after[i][s] == atlases[i][s] else i == k && s == |atlases[k]| && after[i][s] == slot;
    if k < |atlases| {
      assert after[k][|atlases[k]|] == slot;
      forall c | Cached(atlases, c)
        ensures Cached(after, c)
      {
        var i, s :| 0 <= i < |atlases| && 0 <= s < |atlases[i]| && atlases[i][s].character == c;
        assert after[i][s].character == c;
      }
    }
  }

  class Font {
    const atlases: seq<Atlas>

    constructor ()
      ensures Valid() && forall i :: 0 <= i < |atlases| ==> fresh(atlases[i]) && fresh(atlases[i].buffer)
    {
      hide SingleSlots, Atlas.Valid, Slots;
      var a := new Atlas();
      var b := new Atlas();
      var c := new Atlas();
      var d := new Atlas();
      atlases := [a, b, c, d];
      new;
      NoneSingle(Slots());
    }

    static lemma NoneSingle(atlases: seq<seq<Slot>>)
      requires forall i :: 0 <= i < |atlases| ==> atlases[i] == []
      ensures SingleSlots(atlases)
    {
    }

    ghost function Repr(): set<object> {
      (set i | 0 <= i < |atlases| :: atlases[i]) + (set i | 0 <= i < |atlases| :: atlases[i].buffer)
    }

    ghost predicate Separate() {
      && |atlases| == MAX_ATLASES
      && forall i, j :: 0 <= i < j < |atlases| ==> atlases[i] != atlases[j] && atlases[i].buffer != atlases[j].buffer
    }

    ghost function Slots(): (v: seq<seq<Slot>>)
      requires Separate()
      reads Repr()
      ensures |v| == MAX_ATLASES && forall i :: 0 <= i < MAX_ATLASES ==> v[i] == atlases[i].glyphSlots
    {
      [atlases[0].glyphSlots, atlases[1].glyphSlots, atlases[2].glyphSlots, atlases[3].glyphSlots]
    }

    /** What has been uploaded, slot by slot. */
    ghost function Bitmaps(): (v: seq<seq<Bitmap>>)
      requires Separate()
      reads Repr()
      ensures |v| == MAX_ATLASES && forall i :: 0 <= i < MAX_ATLASES ==> v[i] == atlases[i].bitmaps
    {
      [atlases[0].bitmaps, atlases[1].bitmaps, atlases[2].bitmaps, atlases[3].bitmaps]
    }

    ghost predicate Valid()
      reads Repr()
    {
      Separate() && SingleSlots(Slots()) && forall i :: 0 <= i < |atlases| ==> atlases[i].Valid()
    }

    /** UploadGlyph: the first atlas that takes the glyph. */
    method UploadGlyph(character: char, b: Bitmap) returns (k: nat, slot: Slot)
      requires Valid() && b.Valid() && b.Fits() && !Cached(Slots(), character)
      modifies Repr()
      ensures Valid() && k <= 4 && slot.character == character
      ensures Slots() == Extended(old(Slots()), k, slot) && Bitmaps() == Extended(old(Bitmaps()), k, b)
      ensures forall i :: 0 <= i < k ==> !old(atlases[i].HasRoom(b.width, |b.rows|))
      ensures k < MAX_ATLASES ==> old(atlases[k].HasRoom(b.width, |b.rows|))
    {
      hide Atlas.Valid, Bitmap.Valid, SingleSlots, Cached, Atlas.HasRoom, Slots, Bitmaps;
      k := 0;
      slot := Slot(character, 0, 0, 0, 0);
      ghost var slots := Slots();
      while k < MAX_ATLASES
        invariant 0 <= k <= MAX_ATLASES && slot.character == character
        invariant Slots() == slots && Bitmaps() == old(Bitmaps())
        invariant forall i :: 0 <= i < |atlases| ==> atlases[i].Valid()
        invariant forall i :: 0 <= i < k ==> !old(atlases[i].HasRoom(b.width, |b.rows|))
        invariant forall i :: k <= i < MAX_ATLASES ==> atlases[i].HasRoom(b.width, |b.rows|) == old(atlases[i].HasRoom(b.width, |b.rows|))
        decreases MAX_ATLASES - k
      {
        var found, got := atlases[k].Upload(character, b);
        if found {
          slot := got;
          break;
        }
        k := k + 1;
      }
      ExtendedKeepsSingleSlots(slots, k, slot);
      assert Slots() == Extended(slots, k, slot);
    }

    /**
     * GetGlyph: a cached glyph is found in its one slot; any other is rendered and uploaded. `index` and `load` stand for
     * the font file.
     */
    method GetGlyph(character: char, index: char -> nat, load: nat -> Option<Bitmap>, drawMissing: bool) returns (r: Lookup)
      requires Valid()
      requires forall g :: load(g).Some? ==> load(g).value.Valid() && load(g).value.Fits()
      modifies Repr()
      ensures Valid()
      ensures old(Cached(Slots(), character)) ==> r.Found?
      ensures r.Found? ==> r.atlas < MAX_ATLASES && r.slot in Slots()[r.atlas] && r.slot.character == character
      ensures r == Failed <==>
                && !old(Cached(Slots(), character)) && !(index(character) == 0 && !drawMissing)
                && match load(index(character))
                   case None => true
                   case Some(b) => forall i :: 0 <= i < MAX_ATLASES ==> !old(atlases[i].HasRoom(b.width, |b.rows|))
      ensures r == Missing <==> !old(Cached(Slots(), character)) && index(character) == 0 && !drawMissing
      ensures if old(Cached(Slots(), character)) || !r.Found? then Slots() == old(Slots()) && Bitmaps() == old(Bitmaps())
              else load(index(character)).Some? && Slots() == Extended(old(Slots()), r.atlas, r.slot)
                   && Bitmaps() == Extended(old(Bitmaps()), r.atlas, load(index(character)).value)
    {
      hide Atlas.Valid, Bitmap.Valid, SingleSlots, Atlas.HasRoom;
      for i := 0 to MAX_ATLASES
        invariant forall j, s :: 0 <= j < i && 0 <= s < |Slots()[j]| ==> Slots()[j][s].character != character
      {
        var slots := atlases[i].glyphSlots;
        for s := 0 to |slots|
          invariant forall t :: 0 <= t < s ==> slots[t].character != character
        {
          if slots[s].character == character {
            assert Slots()[i][s].character == character;
            return Found(i, slots[s]);
          }
        }
      }
      if index(character) == 0 && !drawMissing {
        return Missing;
      }
      var glyph := load(index(character));
      if glyph.None? {
        return Failed;
      }
      var k, slot := UploadGlyph(character, glyph.value);
      if k == MAX_ATLASES {
        return Failed;
      }
      assert slot == Slots()[k][|Slots()[k]| - 1];
      r := Found(k, slot);
    }
  }
}
