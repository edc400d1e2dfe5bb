/** The static data of the storefront (constants.tsx): the product catalog and the mascot's frame counter. */
module Constants {
  import opened Types

  /** The catalog, in display order. Prices are in cents (2400 dollars is 240000). */
  const Products: seq<Product> := [
    ForgeEngine,
    LeverageSdk,
    EngineSdk,
    BikerJacket,
    Cap,
    BotFigurine,
    RustFrame,
    ArcCapacitor
  ]

  const ForgeEngineId: string := "torque-forge-01"
  const ForgeEngineName: string := "Forge Engine V1"
  const ForgeEngineDescription: string :=
    "Industrial-grade "
      + "neural "
      + "orchestrator. Built "
      + "for high-torque "
      + "agentic reasoning "
      + "and zero-latency "
      + "decision loops."
  const ForgeEngine: Product :=
    Product(ForgeEngineId, ForgeEngineName, ForgeEngineDescription,
    ["Core", "Compute", "Steel"],
    "https://"
      + "storage.googleapis.com/"
      + "rga-image-to-url/9pIn88_T.png",
    240000)

  const LeverageSdkId: string := "torque-lever-sdk"
  const LeverageSdkName: string := "Leverage SDK Pro"
  const LeverageSdkDescription: string :=
    "The 'Infinite "
      + "Leverage' "
      + "development suite. "
      + "Hardened libraries "
      + "for recursive "
      + "tool-use and "
      + "multi-bot "
      + "synchronization."
  const LeverageSdk: Product :=
    Product(LeverageSdkId, LeverageSdkName, LeverageSdkDescription,
    ["SDK", "Software", "Leverage"],
    "https://images.unsplash.com/"
      + "photo-1639322537228-f710d846310a?"
      + "auto=format&fit=crop&q=80&"
      + "w=800",
    9900)

  const EngineSdkId: string := "torque-engine-sdk-v1"
  const EngineSdkName: string := "TORQUE ENGINE SDK v1.0"
  const EngineSdkDescription: string :=
    "Uncompromised "
      + "neural interface "
      + "for autonomous "
      + "software outcomes. "
      + "Engineered for "
      + "high-velocity "
      + "agentic logic."
  const EngineSdk: Product :=
    Product(EngineSdkId, EngineSdkName, EngineSdkDescription,
    ["SDK", "Core"],
    "https://"
      + "storage.googleapis.com/"
      + "rga-image-to-url/20GQjTM5.png",
    5999)

  const BikerJacketId: string := "torque-biker-jacket"
  const BikerJacketName: string := "TORQUE BIKER JACKET"
  const BikerJacketDescription: string :=
    "Industrial-grade "
      + "chassis for the "
      + "human frame. "
      + "Reinforced armor "
      + "for the Rogue "
      + "Industrialist "
      + "lifestyle."
  const BikerJacket: Product :=
    Product(BikerJacketId, BikerJacketName, BikerJacketDescription,
    ["Gear", "Armor"],
    "https://"
      + "storage.googleapis.com/"
      + "rga-image-to-url/GiK5Pf6v.png",
    35999)

  const CapId: string := "torque-cap"
  const CapName: string := "TORQUE CAP"
  const CapDescription: string :=
    "Noise-rejection "
      + "tactical headwear. "
      + "Low profile, high "
      + "impact "
      + "multiplication for "
      + "elite builders."
  const Cap: Product :=
    Product(CapId, CapName, CapDescription,
    ["Gear", "Tactical"],
    "https://"
      + "storage.googleapis.com/"
      + "rga-image-to-url/dsst9EIb.png",
    1999)

  const BotFigurineId: string := "torque-bot-figurine"
  const BotFigurineName: string := "TORQUE BOT FIGURINE"
  const BotFigurineDescription: string :=
    "Desktop-scale agent "
      + "manifestation. "
      + "Precision molded "
      + "for builders who "
      + "value sovereign "
      + "aesthetics."
  const BotFigurine: Product :=
    Product(BotFigurineId, BotFigurineName, BotFigurineDescription,
    ["Collectible", "Mascot"],
    "https://"
      + "storage.googleapis.com/"
      + "rga-image-to-url/N_CDpIil.png",
    3999)

  const RustFrameId: string := "torque-rust-frame"
  const RustFrameName: string := "Oxidized Chassis v4"
  const RustFrameDescription: string :=
    "Ruggedized exterior "
      + "housing for edge "
      + "nodes. Weathered "
      + "bronze finish with "
      + "Molton Rust "
      + "accents. Built to "
      + "last the "
      + "singularity."
  const RustFrame: Product :=
    Product(RustFrameId, RustFrameName, RustFrameDescription,
    ["Hardware", "Chassis", "Rugged"],
    "https://images.unsplash.com/"
      + "photo-1518770660439-4636190af475?"
      + "auto=format&fit=crop&q=80&"
      + "w=800",
    65000)

  const ArcCapacitorId: string := "torque-arc-capacitor"
  const ArcCapacitorName: string := "Arc Flash Power Cell"
  const ArcCapacitorDescription: string :=
    "High-density power "
      + "storage for mobile "
      + "agent platforms. "
      + "Delivers a steady "
      + "FFD700 surge for "
      + "intensive compute "
      + "cycles."
  const ArcCapacitor: Product :=
    Product(ArcCapacitorId, ArcCapacitorName, ArcCapacitorDescription,
    ["Power", "Battery", "Arc"],
    "https://images.unsplash.com/"
      + "photo-1451187580459-43490279c0fa?"
      + "auto=format&fit=crop&q=80&"
      + "w=800",
    32000)


  /** No two products share an id, so a first-match lookup by id is unambiguous. */
  predicate DistinctIds(catalog: seq<Product>) {
    forall i, j :: 0 <= i < j < |catalog| ==> catalog[i].id != catalog[j].id
  }

  /** An id that a product marker can carry (non-empty, no `]`) and at least one tag. */
  predicate WellFormedProduct(p: Product) {
    p.id != [] && ']' !in p.id && p.tags != []
  }

  /** Every catalog entry is well formed. */
  lemma CatalogProductsWellFormed()
    ensures |Products| == 8
    ensures forall k :: 0 <= k < |Products| ==> WellFormedProduct(Products[k])
  {
    CatalogIdsListed();
    IdsUsable();
    CatalogTagsPresent();
  }

  /** The catalog's ids, in display order. */
  const CatalogIds: seq<string> := [
    ForgeEngineId, LeverageSdkId, EngineSdkId, BikerJacketId,
    CapId, BotFigurineId, RustFrameId, ArcCapacitorId
  ]

  lemma CatalogIdsListed()
    ensures |Products| == |CatalogIds| == 8
    ensures forall k :: 0 <= k < 8 ==> Products[k].id == CatalogIds[k]
  {
  }

  lemma CatalogTagsPresent()
    ensures |Products| == 8
    ensures forall k :: 0 <= k < 8 ==> Products[k].tags != []
  {
  }

  /** Every id is non-empty and free of `]`, so a marker can carry it. */
  lemma IdsUsable()
    ensures forall k :: 0 <= k < |CatalogIds| ==> CatalogIds[k] != [] && ']' !in CatalogIds[k]
  {
    assert forall k :: 0 <= k < |CatalogIds| ==> |CatalogIds[k]| >= 10 && CatalogIds[k][..7] == "torque-";
  }

  /** The catalog ids are pairwise distinct: they already differ in their eighth or ninth character. */
  lemma CatalogIdsDistinct()
    ensures DistinctIds(Products)
  {
    CatalogIdsListed();
    IdsDiffer();
  }

  lemma IdsDiffer()
    ensures forall i, j :: 0 <= i < j < |CatalogIds| ==> CatalogIds[i] != CatalogIds[j]
  {
    assert CatalogIds[0][7] == 'f' && CatalogIds[1][7] == 'l';
    assert CatalogIds[2][7] == 'e' && CatalogIds[3][7] == 'b';
    assert CatalogIds[4][7] == 'c' && CatalogIds[5][7] == 'b';
    assert CatalogIds[6][7] == 'r' && CatalogIds[7][7] == 'a';
    assert CatalogIds[3][8] == 'i' && CatalogIds[5][8] == 'o';
    forall i, j | 0 <= i < j < |CatalogIds| ensures CatalogIds[i] != CatalogIds[j] {
      assert CatalogIds[i][7] != CatalogIds[j][7] || CatalogIds[i][8] != CatalogIds[j][8];
    }
  }

  /** The catalog texts that end up in the service's catalog context hold no line break. The long
      literals are written as concatenations of short pieces, and each piece is checked on its own,
      which keeps these proofs cheap for the solver. */
  lemma ForgeEngineOneLine()
    ensures '\n' !in ForgeEngineId && '\n' !in ForgeEngineName && '\n' !in ForgeEngineDescription
  {
    assert '\n' !in ForgeEngineId && '\n' !in ForgeEngineName;
    assert '\n' !in "Industrial-grade "
      && '\n' !in "neural "
      && '\n' !in "orchestrator. Built "
      && '\n' !in "for high-torque "
      && '\n' !in "agentic reasoning "
      && '\n' !in "and zero-latency "
      && '\n' !in "decision loops.";
  }

  lemma LeverageSdkOneLine()
    ensures '\n' !in LeverageSdkId && '\n' !in LeverageSdkName && '\n' !in LeverageSdkDescription
  {
    assert '\n' !in LeverageSdkId && '\n' !in LeverageSdkName;
    assert '\n' !in "The 'Infinite "
      && '\n' !in "Leverage' "
      && '\n' !in "development suite. "
      && '\n' !in "Hardened libraries "
      && '\n' !in "for recursive "
      && '\n' !in "tool-use and "
      && '\n' !in "multi-bot "
      && '\n' !in "synchronization.";
  }

  lemma EngineSdkOneLine()
    ensures '\n' !in EngineSdkId && '\n' !in EngineSdkName && '\n' !in EngineSdkDescription
  {
    assert '\n' !in EngineSdkId && '\n' !in EngineSdkName;
    assert '\n' !in "Uncompromised "
      && '\n' !in "neural interface "
      && '\n' !in "for autonomous "
      && '\n' !in "software outcomes. "
      && '\n' !in "Engineered for "
      && '\n' !in "high-velocity "
      && '\n' !in "agentic logic.";
  }

  lemma BikerJacketOneLine()
    ensures '\n' !in BikerJacketId && '\n' !in BikerJacketName && '\n' !in BikerJacketDescription
  {
    assert '\n' !in BikerJacketId && '\n' !in BikerJacketName;
    assert '\n' !in "Industrial-grade "
      && '\n' !in "chassis for the "
      && '\n' !in "human frame. "
      && '\n' !in "Reinforced armor "
      && '\n' !in "for the Rogue "
      && '\n' !in "Industrialist "
      && '\n' !in "lifestyle.";
  }

  lemma CapOneLine()
    ensures '\n' !in CapId && '\n' !in CapName && '\n' !in CapDescription
  {
    assert '\n' !in CapId && '\n' !in CapName;
    assert '\n' !in "Noise-rejection "
      && '\n' !in "tactical headwear. "
      && '\n' !in "Low profile, high "
      && '\n' !in "impact "
      && '\n' !in "multiplication for "
      && '\n' !in "elite builders.";
  }

  lemma BotFigurineOneLine()
    ensures '\n' !in BotFigurineId && '\n' !in BotFigurineName && '\n' !in BotFigurineDescription
  {
    assert '\n' !in BotFigurineId && '\n' !in BotFigurineName;
    assert '\n' !in "Desktop-scale agent "
      && '\n' !in "manifestation. "
      && '\n' !in "Precision molded "
      && '\n' !in "for builders who "
      && '\n' !in "value sovereign "
      && '\n' !in "aesthetics.";
  }

  lemma RustFrameOneLine()
    ensures '\n' !in RustFrameId && '\n' !in RustFrameName && '\n' !in RustFrameDescription
  {
    assert '\n' !in RustFrameId && '\n' !in RustFrameName;
    assert '\n' !in "Ruggedized exterior "
      && '\n' !in "housing for edge "
      && '\n' !in "nodes. Weathered "
      && '\n' !in "bronze finish with "
      && '\n' !in "Molton Rust "
      && '\n' !in "accents. Built to "
      && '\n' !in "last the "
      && '\n' !in "singularity.";
  }

  lemma ArcCapacitorOneLine()
    ensures '\n' !in ArcCapacitorId && '\n' !in ArcCapacitorName && '\n' !in ArcCapacitorDescription
  {
    assert '\n' !in ArcCapacitorId && '\n' !in ArcCapacitorName;
    assert '\n' !in "High-density power "
      && '\n' !in "storage for mobile "
      && '\n' !in "agent platforms. "
      && '\n' !in "Delivers a steady "
      && '\n' !in "FFD700 surge for "
      && '\n' !in "intensive compute "
      && '\n' !in "cycles.";
  }

  /** The number of mascot animation frames. */
  const FrameCount: nat := 6

  /** The interval tick of the mascot: `(prev + 1) % frames.length`. */
  function NextFrame(prev: nat): (next: nat)
    ensures next < FrameCount
    ensures prev + 1 < FrameCount ==> next == prev + 1
    ensures prev + 1 == FrameCount ==> next == 0
  {
    (prev + 1) % FrameCount
  }

  /** The frame shown after `ticks` interval ticks, starting from frame 0. */
  function FrameAfter(ticks: nat): (frame: nat)
    ensures frame < FrameCount
  {
    if ticks == 0 then 0 else NextFrame(FrameAfter(ticks - 1))
  }

  /** The mascot cycles through its frames in order: after n ticks it shows frame n mod 6. */
  lemma {:induction false} FrameAfterCycles(ticks: nat)
    ensures FrameAfter(ticks) == ticks % FrameCount
  {
    if ticks > 0 {
      FrameAfterCycles(ticks - 1);
    }
  }
}
