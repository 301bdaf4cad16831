/** components/SourceBadge.tsx: the text, colour classes and emoji prefix of a source's
    badge, chosen from its label and whether it is verified. An absent `verified` prop reads
    as false. */
module SourceBadge {
  import opened Wrappers

  const FreeStyle := "bg-green-100 text-green-800 border-green-200"
  const PaidStyle := "bg-yellow-100 text-yellow-800 border-yellow-200"
  const OpenSourceStyle := "bg-blue-100 text-blue-800 border-blue-200"
  const VerifiedStyle := "bg-emerald-100 text-emerald-800 border-emerald-200"
  const NeutralStyle := "bg-neutral-100 text-neutral-800 border-neutral-200"

  const FreePrefix := "\U{1F193} "
  const PaidPrefix := "\U{1F4B0} "
  const OpenSourcePrefix := "\U{1F4BE} "
  const VerifiedPrefix := "\U{2705} "

  /** The four labels with a colour and an emoji of their own. */
  predicate KnownLabel(lbl: Option<string>) {
    lbl == Some("Free") || lbl == Some("Free Access") || lbl == Some("Paid")
    || lbl == Some("Open Source")
  }

  datatype Badge = Badge(text: string, styles: string, prefix: string)

  /** The badge for a label (`None` for null or undefined) and a verified flag. */
  function RenderBadge(lbl: Option<string>, verified: bool): (b: Badge)
    ensures lbl.Some? ==> b.text == lbl.value
    ensures lbl.None? ==> (b.text == "Verified" <==> verified)
    ensures lbl.None? ==> (b.text == "Source" <==> !verified)
    ensures b.prefix == "" <==> !KnownLabel(lbl) && !verified
    ensures b.prefix == "" <==> b.styles == NeutralStyle
    ensures b.prefix == VerifiedPrefix <==> b.styles == VerifiedStyle
    ensures b.styles == VerifiedStyle <==> !KnownLabel(lbl) && verified
    ensures lbl == Some("Free") || lbl == Some("Free Access") ==>
      b.styles == FreeStyle && b.prefix == FreePrefix
    ensures lbl == Some("Paid") ==> b.styles == PaidStyle && b.prefix == PaidPrefix
    ensures lbl == Some("Open Source") ==>
      b.styles == OpenSourceStyle && b.prefix == OpenSourcePrefix
  {
    var text := lbl.GetOr(if verified then "Verified" else "Source");
    var styles :=
      if lbl == Some("Free") || lbl == Some("Free Access") then FreeStyle
      else if lbl == Some("Paid") then PaidStyle
      else if lbl == Some("Open Source") then OpenSourceStyle
      else if verified then VerifiedStyle
      else NeutralStyle;
    var prefix :=
      if lbl == Some("Free") || lbl == Some("Free Access") then FreePrefix
      else if lbl == Some("Paid") then PaidPrefix
      else if lbl == Some("Open Source") then OpenSourcePrefix
      else if verified then VerifiedPrefix
      else "";
    Badge(text, styles, prefix)
  }

  /** A known label decides colour and emoji whatever the verified flag says, and "Free
      Access" looks exactly like "Free" apart from its text. */
  lemma KnownLabelIgnoresVerified(lbl: Option<string>)
    requires KnownLabel(lbl)
    ensures RenderBadge(lbl, true) == RenderBadge(lbl, false)
    ensures lbl == Some("Free Access") ==>
      RenderBadge(lbl, true).styles == RenderBadge(Some("Free"), true).styles
      && RenderBadge(lbl, true).prefix == RenderBadge(Some("Free"), true).prefix
  {
  }
}
