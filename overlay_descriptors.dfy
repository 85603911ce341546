/** The hover-overlay descriptors of the ritual tea blends
    (src/data/overlay-descriptors.ts): a constant table of eight named entries
    and a lookup that cycles through them by position. */
module OverlayDescriptors {
  import opened Wrappers
  import opened JsNumber

  datatype OverlayDescriptor = OverlayDescriptor(keyword: string, descriptor: string)

  /** The `overlayDescriptors` object: one field per named entry. */
  datatype OverlayTable = OverlayTable(
    goldenHour: OverlayDescriptor,
    twilightSerenity: OverlayDescriptor,
    moonlightMeditation: OverlayDescriptor,
    spicedSanctuary: OverlayDescriptor,
    herbalHarmony: OverlayDescriptor,
    amberDreams: OverlayDescriptor,
    celestialBlend: OverlayDescriptor,
    sacredStillness: OverlayDescriptor)

  const Table := OverlayTable(
    goldenHour := OverlayDescriptor(
      "Golden Awakening",
      "Illuminate your evening with warmth and gentle clarity. A luminous blend that awakens the senses while preparing the body for restful transition."),
    twilightSerenity := OverlayDescriptor(
      "Twilight Embrace",
      "Surrender to the magic hour. This blend wraps you in lavender's calm while cardamom grounds your spirit, creating the perfect threshold between day and night."),
    moonlightMeditation := OverlayDescriptor(
      "Lunar Clarity",
      "Cool, refreshing, and deeply centering. A moonlit journey through mint and basil that clears the mind and invites profound stillness."),
    spicedSanctuary := OverlayDescriptor(
      "Warming Sanctuary",
      "Bold spices create a protective cocoon. This blend ignites inner warmth while grounding herbs anchor you in safety and comfort."),
    herbalHarmony := OverlayDescriptor(
      "Balanced Renewal",
      "A symphony of fresh herbs in perfect balance. Each sip brings renewal, clarity, and the gentle harmony of nature's healing garden."),
    amberDreams := OverlayDescriptor(
      "Amber Reverie",
      "Drift into golden dreams. Warm spices and velvety textures create a luxurious escape, perfect for evening contemplation and rest."),
    celestialBlend := OverlayDescriptor(
      "Cosmic Journey",
      "Transcend the ordinary. Floral notes transport you to celestial realms where jasmine and rose guide your spirit toward infinite peace."),
    sacredStillness := OverlayDescriptor(
      "Deep Surrender",
      "The ultimate invitation to let go. Earthy roots and calming herbs create a sanctuary within, where complete rest becomes possible."))

  /** `Object.values(t)`: the entries in declaration order. */
  function Values(t: OverlayTable): (vs: seq<OverlayDescriptor>)
    ensures |vs| == 8
    ensures vs[0] == t.goldenHour && vs[7] == t.sacredStillness
  {
    [t.goldenHour, t.twilightSerenity, t.moonlightMeditation, t.spicedSanctuary,
     t.herbalHarmony, t.amberDreams, t.celestialBlend, t.sacredStillness]
  }

  /** `getOverlayDescriptor(index)`: `descriptors[index % descriptors.length]`,
      with `None` for `undefined`. A negative index gives a negative remainder,
      which is not an index of the table, unless it is a multiple of eight: the
      remainder is then `-0`, which reads the first entry. */
  function GetOverlayDescriptor(index: int): (r: Option<OverlayDescriptor>)
    ensures r.Some? <==> index >= 0 || index % 8 == 0
    ensures index >= 0 ==> r == Some(Values(Table)[index % 8])
    ensures index < 0 && index % 8 == 0 ==> r == Some(Table.goldenHour)
    ensures r.Some? ==> r.value in Values(Table)
  {
    var descriptors := Values(Table);
    Index(descriptors, Rem(Num(index), Num(|descriptors|)))
  }

  /** The first eight positions name the entries in declaration order. */
  lemma FirstCycleInDeclarationOrder()
    ensures GetOverlayDescriptor(0) == Some(Table.goldenHour)
    ensures GetOverlayDescriptor(1) == Some(Table.twilightSerenity)
    ensures GetOverlayDescriptor(2) == Some(Table.moonlightMeditation)
    ensures GetOverlayDescriptor(3) == Some(Table.spicedSanctuary)
    ensures GetOverlayDescriptor(4) == Some(Table.herbalHarmony)
    ensures GetOverlayDescriptor(5) == Some(Table.amberDreams)
    ensures GetOverlayDescriptor(6) == Some(Table.celestialBlend)
    ensures GetOverlayDescriptor(7) == Some(Table.sacredStillness)
  {
  }

  /** Positions `i` and `i + 8` show the same descriptor. */
  lemma Periodic(index: int)
    requires index >= 0
    ensures GetOverlayDescriptor(index + 8) == GetOverlayDescriptor(index)
  {
    var q := index / 8;
    assert index == 8 * q + index % 8;
    assert index + 8 == 8 * (q + 1) + index % 8;
    assert (index + 8) % 8 == index % 8;
  }

  /** A negative index that is not a multiple of eight reads past the table. */
  lemma NegativeIndexUndefined(index: int)
    requires index < 0 && index % 8 != 0
    ensures GetOverlayDescriptor(index) == None
  {
  }

  /** Every entry has a non-empty keyword and a non-empty descriptor. */
  lemma EntriesNonEmpty()
    ensures forall d :: d in Values(Table) ==> |d.keyword| > 0 && |d.descriptor| > 0
  {
  }
}
