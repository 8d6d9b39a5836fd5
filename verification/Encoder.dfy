/**
 * packages/nouns-sdk/src/image/png-collection-encoder.ts: one palette, shared and extended by all
 * the images of a collection.
 */
module Encoder {
  import opened Wrappers
  import opened OrderedMaps
  import opened Images

  /** The colour map after `set(color, index)` for a whole list of seed colours. */
  function Seeded(seed: seq<string>): Palette {
    if seed == [] then Palette([""], map["" := 0])
    else
      var n := |seed| - 1;
      var p := Seeded(seed[..n]);
      Palette(if seed[n] in p.order then p.order else p.order + [seed[n]], p.slots[seed[n] := n])
  }

  function SeedOrder(seed: seq<string>): seq<string> {
    Seeded(seed).order
  }

  function SeedSlots(seed: seq<string>): map<string, nat> {
    Seeded(seed).slots
  }

  /** Key order and slot numbers agree: slot i of the printed palette is the key mapped to i. */
  predicate SlotsAgree(order: seq<string>, slots: map<string, nat>) {
    forall i :: 0 <= i < |order| ==> order[i] in slots && slots[order[i]] == i
  }

  /**
   * The seed leaves the transparent slot where the encoder puts it. The second form is the odd one
   * out: a first colour given twice takes the slot the transparent key already pushed it to.
   */
  predicate GoodSeed(seed: seq<string>) {
    seed == [] ||
    (Distinct(seed[0 := ""]) && (seed[0] == "" || (|seed| > 1 && seed[1] == seed[0])))
  }

  class PNGCollectionEncoder {
    const colors: OrderedMap<nat>
    const images: OrderedMap<string>
    var folders: map<string, seq<string>>

    ghost predicate Valid()
      reads this, colors, images
    {
      colors.Valid() && images.Valid()
    }

    constructor (seed: Option<seq<string>>)
      ensures Valid() && fresh(colors) && fresh(images)
      ensures colors.order == SeedOrder(if seed.Some? then seed.value else [])
      ensures colors.entries == SeedSlots(if seed.Some? then seed.value else [])
      ensures images.order == [] && folders == map[]
    {
      var slots := new OrderedMap<nat>();
      slots.Set("", 0);
      assert slots.order == SeedOrder([]) && slots.entries == SeedSlots([]);
      if seed.Some? {
        var list := seed.value;
        assert list[..0] == [];
        for i := 0 to |list|
          invariant fresh(slots) && slots.Valid()
          invariant slots.order == SeedOrder(list[..i]) && slots.entries == SeedSlots(list[..i])
        {
          SeedStep(list, i);
          slots.Set(list[i], i);
        }
        assert list[..|list|] == list;
      }
      colors := slots;
      images := new OrderedMap<string>();
      folders := map[];
    }

    /** `data.palette` is the order of the keys. */
    method EncodeImage(name: string, png: Png, folder: Option<string>) returns (rle: string)
      requires Valid()
      modifies this`folders, colors, images
      ensures Valid()
      ensures rle == Rle(png, old(PaletteOf(colors)))
      ensures PaletteOf(colors) == PaletteAfter(old(PaletteOf(colors)), Crop(png, CropBox(png)))
      ensures images.entries == old(images.entries)[name := rle]
      ensures images.order == if name in old(images.order) then old(images.order) else old(images.order) + [name]
      ensures folders == if folder.None? || folder.value == "" then old(folders)
                         else if folder.value in old(folders)
                         then old(folders)[folder.value := old(folders)[folder.value] + [name]]
                         else old(folders)[folder.value := [name]]
    {
      var image := new Image(png.width, png.height, png.rgbaAt);
      rle := image.ToRLE(colors);
      images.Set(name, rle);
      if folder.Some? && folder.value != "" {
        var names := if folder.value in folders then folders[folder.value] else [];
        folders := folders[folder.value := names + [name]];
        assert [] + [name] == [name];
      }
    }
  }

  // ---------- which seeds work ----------

  lemma SeedStep(seed: seq<string>, i: nat)
    requires i < |seed|
    ensures SeedOrder(seed[..i + 1]) ==
            if seed[i] in SeedOrder(seed[..i]) then SeedOrder(seed[..i]) else SeedOrder(seed[..i]) + [seed[i]]
    ensures SeedSlots(seed[..i + 1]) == SeedSlots(seed[..i])[seed[i] := i]
  {
    assert seed[..i + 1][..i] == seed[..i];
  }

  lemma {:induction false} SeedFacts(seed: seq<string>)
    ensures Distinct(SeedOrder(seed)) && SeedOrder(seed) != [] && SeedOrder(seed)[0] == ""
    ensures |SeedOrder(seed)| <= |seed| + 1
    ensures |seed| >= 1 && seed[0] == "" ==> |SeedOrder(seed)| <= |seed|
    ensures |seed| >= 2 && seed[1] == seed[0] ==> |SeedOrder(seed)| <= |seed|
    ensures forall j :: 0 <= j < |seed| ==> seed[j] in SeedOrder(seed)
  {
    if seed != [] {
      var n := |seed| - 1;
      SeedFacts(seed[..n]);
      assert forall j :: 0 <= j < n ==> seed[j] == seed[..n][j];
    }
  }

  /** The slot of a colour is the last place where the seed lists it. */
  lemma {:induction false} SlotIsLast(seed: seq<string>, j: nat)
    requires j < |seed|
    ensures seed[j] in SeedSlots(seed) && j <= SeedSlots(seed)[seed[j]] < |seed|
    ensures seed[SeedSlots(seed)[seed[j]]] == seed[j]
  {
    var n := |seed| - 1;
    if seed[j] != seed[n] {
      SlotIsLast(seed[..n], j);
      var e := SeedSlots(seed[..n])[seed[..n][j]];
      assert seed[e] == seed[..n][e];
    }
  }

  lemma {:induction false} EmptyKeySlot(seed: seq<string>)
    ensures "" in SeedSlots(seed) && ("" !in seed ==> SeedSlots(seed)[""] == 0)
  {
    if seed != [] {
      var n := |seed| - 1;
      EmptyKeySlot(seed[..n]);
      assert seed[n] in seed;
    }
  }

  /** A colour sits no further in the key order than the keys known before it was listed. */
  lemma {:induction false} PlaceIsEarly(seed: seq<string>, i: nat) returns (p: nat)
    requires i < |seed|
    ensures p <= |SeedOrder(seed[..i])| && p < |SeedOrder(seed)| && SeedOrder(seed)[p] == seed[i]
  {
    var n := |seed| - 1;
    if i < n {
      p := PlaceIsEarly(seed[..n], i);
      assert seed[..n][..i] == seed[..i];
    } else {
      SeedFacts(seed);
      var before := SeedOrder(seed[..n]);
      if seed[n] in before {
        p :| 0 <= p < |before| && before[p] == seed[n];
      } else {
        p := |before|;
      }
    }
  }

  /** When slots and order agree, a colour repeats only as far as the keys known before it. */
  lemma AgreeBoundsRepeats(seed: seq<string>, i: nat, j: nat)
    requires SlotsAgree(SeedOrder(seed), SeedSlots(seed))
    requires i < |seed| && j < |seed| && seed[i] == seed[j]
    ensures seed[i] in SeedSlots(seed)
    ensures j <= SeedSlots(seed)[seed[i]] <= |SeedOrder(seed[..i])|
    ensures seed[i] == "" ==> j == 0
  {
    SeedFacts(seed);
    SlotIsLast(seed, j);
    var p := PlaceIsEarly(seed, i);
  }

  lemma AgreeMeansGoodSeed(seed: seq<string>)
    requires SlotsAgree(SeedOrder(seed), SeedSlots(seed))
    ensures GoodSeed(seed)
  {
    if seed != [] {
      if seed[0] != "" {
        var p := PlaceIsEarly(seed, 0);
        SeedFacts(seed);
        SlotIsLast(seed, 0);
        assert |SeedOrder(seed[..0])| == 1;
        assert p == 1 == SeedSlots(seed)[seed[0]];
      }
      var fixed := seed[0 := ""];
      forall i, j | 0 <= i < j < |fixed| ensures fixed[i] != fixed[j] {
        if i == 0 {
          if seed[j] == "" { AgreeBoundsRepeats(seed, j, j); }
        } else if i >= 2 || seed[0] == "" {
          SeedFacts(seed[..i]);
          if seed[i] == seed[j] {
            AgreeBoundsRepeats(seed, i, j);
            assert false;
          }
        } else {
          SeedFacts(seed[..0]);
          if seed[0] == seed[j] { AgreeBoundsRepeats(seed, 0, j); }
        }
      }
    }
  }

  lemma {:induction false} GoodSeedAgrees(seed: seq<string>)
    requires GoodSeed(seed) && seed != []
    ensures SeedOrder(seed) == seed[0 := ""]
    ensures SlotsAgree(SeedOrder(seed), SeedSlots(seed))
  {
    var n := |seed| - 1;
    var init, fixed := seed[..n], seed[0 := ""];
    if n >= 1 && (seed[0] == "" || n >= 2) {
      var start := init[0 := ""];
      assert start == fixed[..n];
      forall i, j | 0 <= i < j < n ensures start[i] != start[j] {
        assert fixed[i] != fixed[j];
      }
      GoodSeedAgrees(init);
      assert forall i :: 0 <= i < n ==> fixed[i] != fixed[n];
    } else {
      ShortSeeds(seed);
    }
  }

  lemma ShortSeeds(seed: seq<string>)
    requires |seed| == 1 || |seed| == 2
    ensures |seed| == 1 && seed[0] == "" ==> Seeded(seed) == Palette([""], map["" := 0])
    ensures |seed| == 2 && seed[0] == seed[1] != "" ==>
              Seeded(seed) == Palette(["", seed[0]], map["" := 0, seed[0] := 1])
  {
    assert seed[..0] == [] && Seeded(seed[..0]) == Palette([""], map["" := 0]);
    if |seed| == 2 {
      var one := seed[..1];
      assert one[..0] == [];
      assert Seeded(one) == Palette(if one[0] in [""] then [""] else [""] + [one[0]], map["" := 0][one[0] := 0]);
      if seed[0] == seed[1] != "" {
        var c := seed[0];
        assert [""] + [c] == ["", c];
        assert Seeded(seed) == Palette(["", c], map["" := 0][c := 0][c := 1]);
        assert map["" := 0][c := 0][c := 1] == map["" := 0, c := 1];
      }
    } else {
      assert map["" := 0]["" := 0] == map["" := 0];
    }
  }

  /** A seeded encoder starts with agreeing slots exactly for the good seeds. */
  lemma SeedWorksIff(seed: seq<string>)
    ensures SlotsAgree(SeedOrder(seed), SeedSlots(seed)) <==> GoodSeed(seed)
    ensures GoodSeed(seed) && seed != [] ==> SeedOrder(seed) == seed[0 := ""]
  {
    if SlotsAgree(SeedOrder(seed), SeedSlots(seed)) { AgreeMeansGoodSeed(seed); }
    if GoodSeed(seed) && seed != [] { GoodSeedAgrees(seed); }
  }

  lemma {:induction false} SeededIsMap(seed: seq<string>)
    ensures IsMap(Seeded(seed))
  {
    SeedFacts(seed);
    if seed != [] {
      var init, c := seed[..|seed| - 1], seed[|seed| - 1];
      SeededIsMap(init);
      assert Seeded(seed).slots.Keys == Seeded(init).slots.Keys + {c};
    }
  }

  // ---------- runs of the encoder ----------

  /** The colour map after a sequence of `encodeImage` calls. */
  function PaletteAfterAll(p: Palette, pngs: seq<Png>): Palette {
    if pngs == [] then p
    else
      var png := pngs[|pngs| - 1];
      PaletteAfter(PaletteAfterAll(p, pngs[..|pngs| - 1]), Crop(png, CropBox(png)))
  }

  /** The text returned by call number i of a run. */
  function RleOf(p: Palette, pngs: seq<Png>, i: nat): string
    requires i < |pngs|
  {
    Rle(pngs[i], PaletteAfterAll(p, pngs[..i]))
  }

  lemma {:induction false} PaletteAfterAllGrows(p: Palette, pngs: seq<Png>)
    requires IsMap(p)
    ensures IsMap(PaletteAfterAll(p, pngs)) && Extends(p, PaletteAfterAll(p, pngs))
  {
    if pngs != [] {
      var init, png := pngs[..|pngs| - 1], pngs[|pngs| - 1];
      var before := PaletteAfterAll(p, init);
      PaletteAfterAllGrows(p, init);
      PaletteGrows(before, Crop(png, CropBox(png)));
      ExtendsChain(p, before, PaletteAfterAll(p, pngs));
    }
  }

  /** Over any run keys are only appended, keep their slots, and stay distinct. */
  lemma {:induction false} PaletteStable(p: Palette, pngs: seq<Png>, i: nat)
    requires IsMap(p) && i <= |pngs|
    ensures IsMap(PaletteAfterAll(p, pngs[..i])) && IsMap(PaletteAfterAll(p, pngs))
    ensures Extends(p, PaletteAfterAll(p, pngs[..i]))
    ensures Extends(PaletteAfterAll(p, pngs[..i]), PaletteAfterAll(p, pngs))
  {
    PaletteAfterAllGrows(p, pngs);
    PaletteAfterAllGrows(p, pngs[..i]);
    if i == |pngs| {
      assert pngs[..i] == pngs;
    } else {
      var init, png := pngs[..|pngs| - 1], pngs[|pngs| - 1];
      var before := PaletteAfterAll(p, init);
      assert init[..i] == pngs[..i];
      PaletteStable(p, init, i);
      PaletteGrows(before, Crop(png, CropBox(png)));
      ExtendsChain(PaletteAfterAll(p, pngs[..i]), before, PaletteAfterAll(p, pngs));
    }
  }
}
