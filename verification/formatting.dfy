/**
 * Display formatting of cells: which branch each formatter takes (not
 * available, a scaled figure, or the cell's own text) and the figure it
 * shows.  The rendering of a figure into digits, with its rounding and
 * thousands separators, is described by the `decimals` and `grouped` fields
 * and not carried out.
 */
module Formatting {
  import opened Wrappers
  import opened Cells

  datatype Display =
    | NotAvailable                                                                   // "N/A"
    | Figure(prefix: string, value: real, decimals: nat, grouped: bool, suffix: string)
    | Verbatim(text: string)                                                         // `str(value)`

  const Million: real := 1000000.0
  const Thousand: real := 1000.0

  /** `str(value)` of a cell that does not coerce to a number. */
  function Str(c: Cell): string
    requires Coerce(c).None?
  {
    match c
    case Text(s) => s
    case NotANumber => "nan"
    case Blank => "None"
  }

  /** `fmt_cost`: "$X.XM" from a million up, "$X.XK" from a thousand up, "$X,XXX" below. */
  function FmtCost(c: Cell): (d: Display)
    ensures d.NotAvailable? <==> Coerce(c).None?
    ensures d.Figure? <==> Coerce(c).Some?
    ensures d.Figure? ==> d.prefix == "$" && d.decimals <= 1
    ensures d.Figure? ==> d.suffix in {"M", "K", ""} && d.value * Scale(d.suffix) == Coerce(c).value
  {
    match Coerce(c)
    case None => NotAvailable
    case Some(v) =>
      if v >= Million then Figure("$", v / Million, 1, false, "M")
      else if v >= Thousand then Figure("$", v / Thousand, 1, false, "K")
      else Figure("$", v, 0, true, "")
  }

  /** The unit a figure is scaled by. */
  function Scale(suffix: string): real {
    if suffix == "M" then Million else if suffix == "K" then Thousand else 1.0
  }

  /**
   * The cost branches: the suffix is chosen by magnitude, the shown figure
   * times its unit is the value, and a scaled figure is at least 1 and
   * (for thousands) below 1000.
   */
  lemma FmtCostBranches(c: Cell, v: real)
    requires Coerce(c) == Some(v)
    ensures FmtCost(c).suffix == "M" <==> v >= Million
    ensures FmtCost(c).suffix == "K" <==> Thousand <= v < Million
    ensures FmtCost(c).suffix == "" <==> v < Thousand
    ensures FmtCost(c).value * Scale(FmtCost(c).suffix) == v
    ensures FmtCost(c).suffix != "" ==> 1.0 <= FmtCost(c).value
    ensures FmtCost(c).suffix == "K" ==> FmtCost(c).value < 1000.0
  {
  }

  /** `fmt_num`: one decimal with separators; missing is "N/A"; other text passes through. */
  function FmtNum(c: Cell): (d: Display)
    ensures d.NotAvailable? <==> c.Blank?
    ensures d.Verbatim? <==> !c.Blank? && Coerce(c).None?
    ensures d.Figure? ==> Some(d.value) == Coerce(c) && d.decimals == 1
  {
    if c.Blank? then NotAvailable
    else match Coerce(c)
      case None => Verbatim(Str(c))
      case Some(v) => Figure("", v, 1, true, "")
  }

  /** `fmt`: a whole number with separators; missing is "N/A"; other text passes through. */
  function Fmt(c: Cell): (d: Display)
    ensures d.NotAvailable? <==> c.Blank?
    ensures d.Verbatim? <==> !c.Blank? && Coerce(c).None?
    ensures d.Figure? ==> Some(d.value) == Coerce(c) && d.decimals == 0
  {
    if c.Blank? then NotAvailable
    else match Coerce(c)
      case Some(v) => Figure("", v, 0, true, "")
      case None => Verbatim(Str(c))
  }

  /** `fmt` and `fmt_num` take the same branch on every cell and differ only in decimals. */
  lemma FmtAndFmtNumAgree(c: Cell)
    ensures Fmt(c).NotAvailable? == FmtNum(c).NotAvailable?
    ensures Fmt(c).Verbatim? ==> Fmt(c) == FmtNum(c)
    ensures Fmt(c).Figure? ==> FmtNum(c) == Fmt(c).(decimals := 1)
  {
  }

  /** `_fmt_energy`: a whole number of kW, or "N/A" for anything not numeric. */
  function FmtEnergy(c: Cell): (d: Display)
    ensures d.NotAvailable? <==> Coerce(c).None?
    ensures d.Figure? <==> Coerce(c).Some?
    ensures d.Figure? ==> Some(d.value) == Coerce(c) && d.suffix == " kW" && d.decimals == 0
  {
    match Coerce(c)
    case None => NotAvailable
    case Some(v) => Figure("", v, 0, true, " kW")
  }

  /** `_fmt_land`: two decimals of square metres, or "N/A". */
  function FmtLand(c: Cell): (d: Display)
    ensures d.NotAvailable? <==> Coerce(c).None?
    ensures d.Figure? <==> Coerce(c).Some?
    ensures d.Figure? ==> Some(d.value) == Coerce(c) && d.suffix == " m²" && d.decimals == 2
  {
    match Coerce(c)
    case None => NotAvailable
    case Some(v) => Figure("", v, 2, false, " m²")
  }

  /** `_fmt_lifespan`: whole years, or the cell's own text ("indefinite"), or "N/A" when empty. */
  function FmtLifespan(c: Cell): (d: Display)
    ensures d.NotAvailable? <==> c.Blank?
    ensures d.Verbatim? <==> !c.Blank? && Coerce(c).None?
    ensures d.Figure? ==> Some(d.value) == Coerce(c) && d.suffix == " years"
  {
    if c.Blank? then NotAvailable
    else match Coerce(c)
      case None => Verbatim(Str(c))
      case Some(v) => Figure("", v, 0, false, " years")
  }

  /**
   * Free text is shown as it is by the pass-through formatters but as "N/A"
   * by the cost, energy and land formatters.
   */
  lemma TextHandling(s: string)
    requires ParseDecimal(s).None?
    ensures Fmt(Text(s)) == Verbatim(s) && FmtNum(Text(s)) == Verbatim(s) && FmtLifespan(Text(s)) == Verbatim(s)
    ensures FmtCost(Text(s)) == NotAvailable && FmtEnergy(Text(s)) == NotAvailable && FmtLand(Text(s)) == NotAvailable
  {
  }

  lemma FormattingExamples()
    ensures FmtCost(Num(1500000.0)) == Figure("$", 1.5, 1, false, "M")
    ensures FmtCost(Num(2500.0)) == Figure("$", 2.5, 1, false, "K")
    ensures FmtCost(Num(999.0)) == Figure("$", 999.0, 0, true, "")
    ensures FmtCost(Blank) == NotAvailable
    ensures FmtLifespan(Text("indefinite")) == Verbatim("indefinite")
    ensures FmtLifespan(Num(20.0)) == Figure("", 20.0, 0, false, " years")
  {
    IndefiniteIsMissing();
  }
}
