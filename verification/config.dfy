/** The rule record `ColorizerItem` of src/Config.cs. */
module Config {
  import opened Options
  import opened Color

  /** One colour rule. `note` is a label only; `regex` and `ignoreCase` are
      read by the regex engine, which this model takes as input. */
  datatype ColorizerItem = ColorizerItem(
    note: Option<string>,
    foreground: string,
    background: string,
    regex: string,
    groupMatch: bool,
    ignoreCase: bool,
    fullRow: bool)

  /** `new ColorizerItem()`, every property at its initialiser or default. */
  function DefaultItem(): ColorizerItem {
    ColorizerItem(None, "", "", "", false, false, false)
  }

  /** The colours a rule asks for: each channel decoded by `ParseColor`. */
  function RuleColors(rule: ColorizerItem): ColorPair {
    ColorPair(ParseColor(rule.foreground), ParseColor(rule.background))
  }

  /** Two rules that differ at most in `note`, `regex` and `ignoreCase`: the
      per-line logic cannot tell them apart once their matches are given. */
  predicate SameBehaviour(a: ColorizerItem, b: ColorizerItem) {
    && a.foreground == b.foreground
    && a.background == b.background
    && a.groupMatch == b.groupMatch
    && a.fullRow == b.fullRow
  }

  /** A rule built without values sets no colour on either channel, and is a
      whole-match, case-sensitive, partial rule with the empty pattern and no note. */
  lemma DefaultItemDefaults()
    ensures RuleColors(DefaultItem()) == NoColor
    ensures !DefaultItem().groupMatch && !DefaultItem().ignoreCase && !DefaultItem().fullRow
    ensures DefaultItem().regex == "" && DefaultItem().note == None
  {
  }

  /** Any rule whose colour strings are blank asks for no colour at all. */
  lemma BlankColorsAskForNothing(rule: ColorizerItem)
    requires IsBlank(rule.foreground) && IsBlank(rule.background)
    ensures RuleColors(rule) == NoColor
  {
  }
}
