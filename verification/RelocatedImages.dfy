/** What "relocated exactly once" means for memory: after any run of the linker, the words of each
    object are those of relocating its own initial image a single time. */
module RelocatedImages {
  import opened Words
  import opened Relocation
  import opened PackedRela
  import opened ObjectRelocation
  import ObjectTable

  /** A mapped object: the addresses of its image, and what its relocation needs. */
  datatype Image = Image(own: set<u64>, base: u64, env: Symbols, tables: Tables)

  function Restrict(m: Memory, own: set<u64>): Memory {
    map a | a in m && a in own :: m[a]
  }

  function RelocateImage(m: Memory, img: Image): Result<Memory> {
    Relocate(m, img.base, img.env, img.tables)
  }

  /** relocate_object called for the objects of a log, in order. */
  function RelocateLog(m: Memory, images: seq<Image>, log: seq<nat>): Result<Memory>
    requires forall k :: 0 <= k < |log| ==> log[k] < |images|
    decreases |log|
  {
    if log == [] then Ok(m)
    else
      match RelocateImage(m, images[log[0]])
      case Err => Err
      case Ok(m1) => RelocateLog(m1, images, log[1..])
  }

  // ---- relocating one object ------------------------------------------------------------------------

  function AllRelas(img: Image, decoded: seq<Rela>): seq<Rela> {
    decoded + img.tables.rela + img.tables.jmprel
  }

  /** No relocation of the image reaches a mapped word outside it. */
  ghost predicate Local(img: Image, mapped: set<u64>) {
    forall a :: a in mapped && a !in img.own ==>
      && a !in RelrSlots(img.tables.relr, 0, img.base)
      && (DecodePacked(img.tables.packed).Ok? ==>
            LastWritten(img.base, img.env, AllRelas(img, DecodePacked(img.tables.packed).value), a) == None)
  }

  lemma {:induction false} AddBaseLocal(m: Memory, own: set<u64>, slots: seq<u64>, base: u64)
    requires forall a :: a in m && a !in own ==> a !in slots
    ensures var m' := AddBaseAll(m, slots, base);
            && m'.Keys == m.Keys && (forall a :: a in m && a !in own ==> m'[a] == m[a])
            && Restrict(m', own) == AddBaseAll(Restrict(m, own), slots, base)
  {
    if slots != [] {
      var m1 := AddBase(m, slots[0], base);
      assert slots[0] in slots;
      assert Restrict(m1, own) == AddBase(Restrict(m, own), slots[0], base);
      AddBaseLocal(m1, own, slots[1..], base);
    }
  }

  lemma RelaLocal(m: Memory, own: set<u64>, base: u64, env: Symbols, relas: seq<Rela>)
    requires forall a :: a in m && a !in own ==> LastWritten(base, env, relas, a) == None
    ensures var m' := RelaAll(m, base, env, relas);
            && m'.Keys == m.Keys && (forall a :: a in m && a !in own ==> m'[a] == m[a])
            && Restrict(m', own) == RelaAll(Restrict(m, own), base, env, relas)
  {
    var m' := RelaAll(m, base, env, relas);
    forall a: u64
      ensures m'.Keys == m.Keys && RelaAll(Restrict(m, own), base, env, relas).Keys == Restrict(m, own).Keys
      ensures a in m ==> m'[a] == OrElse(LastWritten(base, env, relas, a), m[a])
      ensures a in m && a in own ==> RelaAll(Restrict(m, own), base, env, relas)[a] == m'[a]
    {
      RelaAllMeaning(m, base, env, relas, a);
      RelaAllMeaning(Restrict(m, own), base, env, relas, a);
    }
  }

  /** Relocating an image in the whole memory is relocating it alone. */
  lemma RelocateLocal(m: Memory, img: Image)
    requires Local(img, m.Keys)
    ensures RelocateImage(m, img).Ok? <==> RelocateImage(Restrict(m, img.own), img).Ok?
    ensures RelocateImage(m, img).Ok? ==>
              var m' := RelocateImage(m, img).value;
              && m'.Keys == m.Keys && (forall a :: a in m && a !in img.own ==> m'[a] == m[a])
              && Ok(Restrict(m', img.own)) == RelocateImage(Restrict(m, img.own), img)
  {
    if DecodePacked(img.tables.packed).Ok? {
      var slots := RelrSlots(img.tables.relr, 0, img.base);
      var relas := AllRelas(img, DecodePacked(img.tables.packed).value);
      AddBaseLocal(m, img.own, slots, img.base);
      RelaLocal(AddBaseAll(m, slots, img.base), img.own, img.base, img.env, relas);
    }
  }

  // ---- relocating all objects of a log ----------------------------------------------------------------

  ghost predicate Apart(m: Memory, images: seq<Image>) {
    && (forall i :: 0 <= i < |images| ==> Local(images[i], m.Keys))
    && (forall i, j :: 0 <= i < j < |images| ==> images[i].own !! images[j].own)
  }

  ghost predicate Indices(images: seq<Image>, log: seq<nat>) {
    && (forall k :: 0 <= k < |log| ==> log[k] < |images|)
    && (forall j, k :: 0 <= j < k < |log| ==> log[j] != log[k])
  }

  /** The words of image `i` after the log: relocated once if it is in the log, else untouched. */
  ghost predicate OnceEach(m: Memory, m': Memory, images: seq<Image>, log: seq<nat>, i: nat)
    requires i < |images|
  {
    if i in log then RelocateImage(Restrict(m, images[i].own), images[i]) == Ok(Restrict(m', images[i].own))
    else Restrict(m', images[i].own) == Restrict(m, images[i].own)
  }

  lemma {:induction false} LogOnce(m: Memory, images: seq<Image>, log: seq<nat>)
    requires Apart(m, images) && Indices(images, log)
    ensures RelocateLog(m, images, log).Ok? <==>
            forall i :: i in log ==> DecodePacked(images[i].tables.packed).Ok?
    ensures RelocateLog(m, images, log).Ok? ==>
              var m' := RelocateLog(m, images, log).value;
              m'.Keys == m.Keys && forall i :: 0 <= i < |images| ==> OnceEach(m, m', images, log, i)
  {
    if log != [] {
      var i := log[0];
      var rest := log[1..];
      RelocateLocal(m, images[i]);
      assert log == [i] + rest;
      if RelocateImage(m, images[i]).Ok? {
        var m1 := RelocateImage(m, images[i]).value;
        LogOnce(m1, images, rest);
        if RelocateLog(m1, images, rest).Ok? {
          LogStep(m, m1, RelocateLog(m1, images, rest).value, images, i, rest);
        }
      }
    }
  }

  lemma LogStep(m: Memory, m1: Memory, m': Memory, images: seq<Image>, i: nat, rest: seq<nat>)
    requires i < |images| && Apart(m, images) && i !in rest && m1.Keys == m.Keys
    requires forall a :: a in m && a !in images[i].own ==> m1[a] == m[a]
    requires RelocateImage(Restrict(m, images[i].own), images[i]) == Ok(Restrict(m1, images[i].own))
    requires forall k :: 0 <= k < |images| ==> OnceEach(m1, m', images, rest, k)
    ensures forall k :: 0 <= k < |images| ==> OnceEach(m, m', images, [i] + rest, k)
  {
    forall k | 0 <= k < |images| ensures OnceEach(m, m', images, [i] + rest, k) {
      assert OnceEach(m1, m', images, rest, k);
      if k != i {
        assert images[k].own !! images[i].own;
        assert Restrict(m1, images[k].own) == Restrict(m, images[k].own);
      }
    }
  }

  /** Main result: after start-up and any dlopen calls, over disjoint images, every object's words
      are its initial image relocated exactly once - and relocation succeeds exactly when every
      packed table decodes. */
  lemma RunRelocatesOnce(fs: ObjectTable.Files, argv0: string, needed: seq<string>, calls: seq<Option<string>>,
                         m: Memory, images: seq<Image>)
    requires ObjectTable.Run(fs, argv0, needed, calls).Ok?
    requires |images| == |ObjectTable.Run(fs, argv0, needed, calls).value.objects| && Apart(m, images)
    ensures var log := ObjectTable.Run(fs, argv0, needed, calls).value.relocated;
            && (forall k :: 0 <= k < |log| ==> log[k] < |images|)
            && (RelocateLog(m, images, log).Ok? <==>
                  forall i :: 0 <= i < |images| ==> DecodePacked(images[i].tables.packed).Ok?)
            && (RelocateLog(m, images, log).Ok? ==>
                  forall i :: 0 <= i < |images| ==>
                    RelocateImage(Restrict(m, images[i].own), images[i])
                    == Ok(Restrict(RelocateLog(m, images, log).value, images[i].own)))
  {
    ObjectTable.RunIsValid(fs, argv0, needed, calls);
    var log := ObjectTable.Run(fs, argv0, needed, calls).value.relocated;
    assert Indices(images, log);
    LogOnce(m, images, log);
    forall i | 0 <= i < |images| ensures i in log {
      assert log[i] == i;
    }
    if RelocateLog(m, images, log).Ok? {
      var m' := RelocateLog(m, images, log).value;
      forall i | 0 <= i < |images|
        ensures RelocateImage(Restrict(m, images[i].own), images[i]) == Ok(Restrict(m', images[i].own))
      {
        assert OnceEach(m, m', images, log, i);
      }
    }
  }
}
