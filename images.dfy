/** Sector imagery: the image-prompt table and the placeholder picture drawn
    when no image model runs (its colour pair, its vertical gradient, its two
    labels and its file name). Both tables are keyed on the first word of the
    lower-cased sector; a blank sector has no first word, and the lookup
    raises IndexError, modelled as None. */
module Images {
  import opened Text

  // ---------------------------------------------------------------------
  // Prompt table

  /** The sectors both tables know, by the word that keys them. */
  datatype KnownSector = Manufacturing | Pharmaceuticals | Technology | Logistics | Electronics | Entertainment

  function SectorOf(key: string): (r: Option<KnownSector>)
    ensures r == Some(Manufacturing) <==> key == "manufacturing"
  {
    if key == "manufacturing" then Some(Manufacturing)
    else if key == "pharmaceuticals" then Some(Pharmaceuticals)
    else if key == "technology" then Some(Technology)
    else if key == "logistics" then Some(Logistics)
    else if key == "electronics" then Some(Electronics)
    else if key == "entertainment" then Some(Entertainment)
    else None
  }

  /** The image types the prompt table knows. */
  datatype KnownType = Product | Facility | Abstract

  function TypeOf(imageType: string): Option<KnownType> {
    if imageType == "product" then Some(Product)
    else if imageType == "facility" then Some(Facility)
    else if imageType == "abstract" then Some(Abstract)
    else None
  }

  /** How many prompts the table lists for a sector and an image type: the
      manufacturing entry has three product, three facility and two abstract
      prompts; every other sector has three, two and two. */
  function PromptCount(s: KnownSector, k: KnownType): nat {
    if k == Product || (k == Facility && s == Manufacturing) then 3 else 2
  }

  /** The prompt table, one list per known sector and image type: the n-th
      entry of the list is PromptText(s, k, n). */
  function Prompts(s: KnownSector, k: KnownType): (r: seq<string>)
    ensures |r| == PromptCount(s, k)
    ensures forall n :: 0 <= n < |r| ==> r[n] == PromptText(s, k, n)
  {
    seq(PromptCount(s, k), n requires 0 <= n => PromptText(s, k, n))
  }

  /** The n-th prompt of an entry; an index past the end of a list repeats
      its last prompt. */
  function PromptText(s: KnownSector, k: KnownType, n: nat): string {
    match s
    case Manufacturing => ManufacturingText(k, n)
    case Pharmaceuticals => PharmaceuticalsText(k, n)
    case Technology => TechnologyText(k, n)
    case Logistics => LogisticsText(k, n)
    case Electronics => ElectronicsText(k, n)
    case Entertainment => EntertainmentText(k, n)
  }

  function ManufacturingText(k: KnownType, n: nat): string {
    match k
    case Product =>
      if n == 0 then "Professional photograph of precision engineered metal components on white background, industrial quality, no logos"
      else if n == 1 then "Modern manufacturing equipment in clean factory setting, professional lighting, no visible branding"
      else "High-quality machined parts arrangement, industrial photography style, neutral background"
    case Facility =>
      if n == 0 then "Modern manufacturing plant interior with automated machinery, bright lighting, professional photograph"
      else if n == 1 then "Clean industrial workspace with robotic arms, modern factory aesthetic, no logos visible"
      else "Aerial view of modern industrial complex, professional photography, generic design"
    case Abstract =>
      if n == 0 then "Abstract representation of manufacturing precision, geometric shapes in blue and silver, professional design"
      else "Modern industrial infographic background, clean lines, professional color scheme"
  }

  function PharmaceuticalsText(k: KnownType, n: nat): string {
    match k
    case Product =>
      if n == 0 then "Pharmaceutical laboratory with modern equipment, clean room aesthetic, professional photograph"
      else if n == 1 then "Medicine capsules and tablets arrangement on white background, pharmaceutical quality"
      else "Scientific research equipment in modern lab setting, no branding visible"
    case Facility =>
      if n == 0 then "Modern pharmaceutical research facility interior, clean and bright, professional"
      else "GMP certified production line, clean room environment, generic design"
    case Abstract =>
      if n == 0 then "Abstract molecular structure visualization, pharmaceutical blue tones, professional design"
      else "DNA helix with pharmaceutical elements, modern scientific aesthetic"
  }

  function TechnologyText(k: KnownType, n: nat): string {
    match k
    case Product =>
      if n == 0 then "Modern server room with blue LED lighting, technology aesthetic, professional"
      else if n == 1 then "Software development workspace, multiple monitors with code, modern office"
      else "Cloud computing visualization, abstract data center concept"
    case Facility =>
      if n == 0 then "Modern tech office space with collaborative areas, bright and innovative design"
      else "Data center interior with server racks, blue lighting, professional photograph"
    case Abstract =>
      if n == 0 then "Abstract network connectivity visualization, blue nodes and connections"
      else "Digital transformation concept, modern technology infographic style"
  }

  function LogisticsText(k: KnownType, n: nat): string {
    match k
    case Product =>
      if n == 0 then "Modern logistics warehouse interior, organized shelving, professional lighting"
      else if n == 1 then "Fleet of delivery trucks, aerial view, professional photograph, no logos"
      else "Automated sorting facility, conveyor systems, modern logistics"
    case Facility =>
      if n == 0 then "Large distribution center aerial view, modern logistics hub design"
      else "Supply chain visualization, warehouse to delivery network"
    case Abstract =>
      if n == 0 then "Abstract supply chain network, connected nodes and routes, professional design"
      else "Global logistics map visualization, modern infographic style"
  }

  function ElectronicsText(k: KnownType, n: nat): string {
    match k
    case Product =>
      if n == 0 then "Printed circuit boards arrangement, electronic components, professional macro photography"
      else if n == 1 then "Modern electronic assembly, semiconductor chips, clean room environment"
      else "Aerospace electronics modules, high-precision components, professional"
    case Facility =>
      if n == 0 then "Electronics manufacturing clean room, automated assembly lines"
      else "R&D laboratory with testing equipment, modern electronics facility"
    case Abstract =>
      if n == 0 then "Abstract circuit pattern, electronic pathways, blue and gold tones"
      else "Technology innovation concept, electronic components in modern design"
  }

  function EntertainmentText(k: KnownType, n: nat): string {
    match k
    case Product =>
      if n == 0 then "Modern cinema interior, comfortable seating, ambient lighting"
      else if n == 1 then "Movie theater projection room, professional equipment"
      else "Entertainment venue lobby, modern design aesthetic"
    case Facility =>
      if n == 0 then "Multiplex cinema exterior, modern architecture, evening lighting"
      else "Entertainment complex aerial view, contemporary design"
    case Abstract =>
      if n == 0 then "Abstract entertainment concept, film reel and digital elements"
      else "Movie and media visualization, creative industry design"
  }

  /** The table key of a sector: the first word of the lower-cased sector. */
  function SectorKey(sector: string): (r: Option<string>)
    ensures r.None? <==> AllSpace(sector)
    ensures r.Some? ==> r.value != [] && r.value == Lower(r.value)
  {
    FirstWordLower(sector);
    var r := FirstWord(Lower(sector));
    if r.Some? then LowerIdempotent(FirstWord(sector).value); r else r
  }

  lemma LowerIdempotent(s: string)
    ensures Lower(Lower(s)) == Lower(s)
  {
  }

  /** The prompts for a sector and an image type. An unknown sector uses the
      manufacturing entry and an unknown image type the sector's abstract list,
      so a non-blank sector always gets at least two prompts. */
  function ImagePrompts(sector: string, imageType: string): (r: Option<seq<string>>)
    ensures r.None? <==> AllSpace(sector)
    ensures r.Some? ==> |r.value| >= 2
  {
    match SectorKey(sector)
    case None => None
    case Some(key) =>
      var s := SectorOf(key).GetOr(Manufacturing);
      var k := TypeOf(imageType).GetOr(Abstract);
      Some(Prompts(s, k))
  }

  /** A sector whose first word is not in the table gets the prompts of a
      manufacturing sector. */
  lemma UnknownSectorPrompts(sector: string, manufacturing: string, imageType: string)
    requires SectorKey(sector).Some? && SectorOf(SectorKey(sector).value).None?
    requires SectorKey(manufacturing) == Some("manufacturing")
    ensures ImagePrompts(sector, imageType) == ImagePrompts(manufacturing, imageType)
  {
  }

  /** An image type that is not in the table gets the sector's abstract
      prompts. */
  lemma UnknownTypePrompts(sector: string, imageType: string)
    requires TypeOf(imageType).None?
    ensures ImagePrompts(sector, imageType) == ImagePrompts(sector, "abstract")
  {
  }

  // ---------------------------------------------------------------------
  // Placeholder colours and gradient

  datatype Rgb = Rgb(red: int, green: int, blue: int)

  predicate IsColour(c: Rgb) {
    0 <= c.red <= 255 && 0 <= c.green <= 255 && 0 <= c.blue <= 255
  }

  const Width: nat := 800
  const Height: nat := 600

  /** Every placeholder shades from this colour at the top. */
  const TopColour: Rgb := Rgb(45, 35, 75)

  /** The colour each known sector shades to at the bottom. */
  function Bottom(s: KnownSector): Rgb {
    match s
    case Manufacturing => Rgb(0, 191, 179)
    case Pharmaceuticals => Rgb(126, 87, 194)
    case Technology => Rgb(0, 150, 255)
    case Logistics => Rgb(254, 185, 95)
    case Electronics => Rgb(232, 77, 138)
    case Entertainment => Rgb(255, 105, 135)
  }

  /** The bottom colour for a sector key: the manufacturing one when the key
      is unknown, and a valid colour in every case. */
  function BottomColour(key: string): (c: Rgb)
    ensures IsColour(c)
    ensures SectorOf(key).None? ==> c == Bottom(Manufacturing)
    ensures SectorOf(key).Some? ==> c == Bottom(SectorOf(key).value)
  {
    match SectorOf(key)
    case Some(s) => Bottom(s)
    case None => Rgb(0, 191, 179)
  }

  /** `int(c0 + (c1 - c0) * y / 600)`. The exact quotient is never negative
      here, so truncation is the floor and Dafny's division on a positive
      divisor gives it; the float rounding is far below the 1/600 that
      separates a non-integral quotient from the next integer. So v is the
      largest integer with v <= c0 + (c1 - c0) * y / 600, stated here without
      division. */
  function Channel(c0: int, c1: int, y: int): (v: int)
    ensures Height * v <= Height * c0 + (c1 - c0) * y < Height * v + Height
    ensures y == 0 ==> v == c0
    ensures y == Height ==> v == c1
    ensures 0 <= y <= Height && c0 <= c1 ==> c0 <= v <= c1
    ensures 0 <= y <= Height && c1 <= c0 ==> c1 <= v <= c0
  {
    ChannelBounds(c0, c1, y);
    FloorQuotient((c1 - c0) * y);
    c0 + ((c1 - c0) * y) / Height
  }

  /** a / 600 is the floor of the exact quotient. */
  lemma FloorQuotient(a: int)
    ensures Height * (a / Height) <= a < Height * (a / Height) + Height
  {
  }

  lemma ChannelBounds(c0: int, c1: int, y: int)
    ensures 0 <= y <= Height && c0 <= c1 ==> 0 <= (c1 - c0) * y / Height <= c1 - c0
    ensures 0 <= y <= Height && c1 <= c0 ==> c1 - c0 <= (c1 - c0) * y / Height <= 0
  {
    if 0 <= y <= Height {
      var d := c1 - c0;
      if d >= 0 {
        assert 0 <= d * y <= d * Height;
      } else {
        assert d * Height <= d * y <= 0;
      }
    }
  }

  /** Each channel moves steadily from the top colour to the bottom one. */
  lemma ChannelMonotone(c0: int, c1: int, y1: int, y2: int)
    requires 0 <= y1 <= y2
    ensures c0 <= c1 ==> Channel(c0, c1, y1) <= Channel(c0, c1, y2)
    ensures c1 <= c0 ==> Channel(c0, c1, y2) <= Channel(c0, c1, y1)
  {
    var d := c1 - c0;
    if d >= 0 {
      assert d * y1 <= d * y2;
      DivMonotone(d * y1, d * y2);
    } else {
      assert d * y2 <= d * y1;
      DivMonotone(d * y2, d * y1);
    }
  }

  lemma DivMonotone(a: int, b: int)
    requires a <= b
    ensures a / Height <= b / Height
  {
  }

  /** The colour of row y. */
  function RowColour(top: Rgb, bottom: Rgb, y: int): (c: Rgb)
    ensures y == 0 ==> c == top
    ensures IsColour(top) && IsColour(bottom) && 0 <= y <= Height ==> IsColour(c)
  {
    Rgb(Channel(top.red, bottom.red, y), Channel(top.green, bottom.green, y), Channel(top.blue, bottom.blue, y))
  }

  /** The gradient loop: a black canvas whose rows are painted top to bottom,
      row y in RowColour(top, bottom, y). */
  method RenderGradient(top: Rgb, bottom: Rgb) returns (rows: seq<Rgb>)
    ensures |rows| == Height
    ensures forall y :: 0 <= y < Height ==> rows[y] == RowColour(top, bottom, y)
  {
    var canvas := new Rgb[Height](_ => Rgb(0, 0, 0));
    for y := 0 to Height
      invariant forall k :: 0 <= k < y ==> canvas[k] == RowColour(top, bottom, k)
    {
      canvas[y] := RowColour(top, bottom, y);
    }
    rows := canvas[..];
  }

  /** A placeholder image: its file name, its two labels and its rows. The
      width is the same for every row and is not recorded. */
  datatype Placeholder = Placeholder(fileName: string, title: string, caption: string, rows: seq<Rgb>)

  /** `<first word of the sector, lower-cased>_<image type>_<timestamp>.png` */
  function FileName(word: string, imageType: string, timestamp: string): (r: string)
    ensures |r| == |word| + |imageType| + |timestamp| + 6
    ensures r[..|word| + 1] == Lower(word) + "_"
    ensures r[|word| + 1..|word| + 1 + |imageType|] == imageType
    ensures r[|r| - 4..] == ".png"
  {
    Lower(word) + "_" + imageType + "_" + timestamp + ".png"
  }

  /** The placeholder for a non-blank sector: the upper-cased sector as title,
      the bracketed upper-cased image type as caption, the file name from the
      sector's first word, and the full-height gradient from the top colour to
      the sector's bottom colour, every row a valid colour. */
  predicate DrawnFor(p: Placeholder, sector: string, imageType: string, timestamp: string) {
    && !AllSpace(sector)
    && p.title == Upper(sector)
    && p.caption == "[ " + Upper(imageType) + " ]"
    && p.fileName == FileName(FirstWord(sector).value, imageType, timestamp)
    && |p.rows| == Height && p.rows[0] == TopColour
    && forall y :: 0 <= y < Height ==>
         p.rows[y] == RowColour(TopColour, BottomColour(SectorKey(sector).value), y) && IsColour(p.rows[y])
  }

  /** The placeholder for a sector: None for a blank sector, whose colour
      lookup raises IndexError. */
  method PlaceholderImage(sector: string, imageType: string, timestamp: string) returns (p: Option<Placeholder>)
    ensures p.None? <==> AllSpace(sector)
    ensures p.Some? ==> DrawnFor(p.value, sector, imageType, timestamp)
  {
    var key := SectorKey(sector);
    if key.None? {
      return None;
    }
    var rows := RenderGradient(TopColour, BottomColour(key.value));
    var word := FirstWord(sector);
    var name := FileName(word.value, imageType, timestamp);
    p := Some(Placeholder(name, Upper(sector), "[ " + Upper(imageType) + " ]", rows));
  }

  /** The file name starts with the same word that picked the colours. */
  lemma FileNameWord(sector: string, imageType: string, timestamp: string)
    requires !AllSpace(sector)
    ensures FileName(FirstWord(sector).value, imageType, timestamp)
      == SectorKey(sector).value + "_" + imageType + "_" + timestamp + ".png"
  {
    FirstWordLower(sector);
  }
}
