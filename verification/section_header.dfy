/**
 * The header row drawn above each route section: its label, its progress count and
 * colour, and its collapsed flag with the optional callback fired on a click.
 */
module SectionHeaders {
  import opened Wrappers
  import Text

  /** The name used for a section without one, for display and as its key. */
  const DEFAULT_NAME := "Section"

  /** How the list and the header identify a section: its name, or "Section". */
  function SectionKey(name: Option<string>): (r: string)
    ensures name.Some? ==> r == name.value
    ensures name.None? ==> r == DEFAULT_NAME
  {
    name.GetOr(DEFAULT_NAME)
  }

  /** The label: the display name, then " - " and the description when that is non-empty. */
  function LabelText(name: Option<string>, description: Option<string>): (r: string)
    ensures |r| >= |SectionKey(name)| && r[..|SectionKey(name)|] == SectionKey(name)
  {
    var displayName := SectionKey(name);
    if description.Some? && description.value != "" then displayName + " - " + description.value
    else displayName
  }

  /** The description shows exactly when it is non-empty, and then it ends the label. */
  lemma LabelShowsDescription(name: Option<string>, description: Option<string>)
    ensures |LabelText(name, description)| > |SectionKey(name)| <==> description.Some? && description.value != ""
    ensures description.Some? && description.value != "" ==>
      var r := LabelText(name, description);
      r[|SectionKey(name)|..] == " - " + description.value
  {
  }

  /** The progress text "completed/total". */
  function ProgressText(completed: int, total: int): (r: string)
    ensures '/' in r
  {
    Text.IntToString(completed) + "/" + Text.IntToString(total)
  }

  /** Index of the first '/' in `s`, or |s|. */
  function SlashIndex(s: string): (r: nat)
    ensures r <= |s|
    ensures forall i :: 0 <= i < r ==> s[i] != '/'
    ensures r < |s| ==> s[r] == '/'
  {
    if |s| == 0 then 0
    else if s[0] == '/' then 0
    else 1 + SlashIndex(s[1..])
  }

  /** Reads a progress text back into its two counts. */
  function ParseProgress(s: string): Option<(int, int)>
  {
    var k := SlashIndex(s);
    if k < |s| && Text.IsIntText(s[..k]) && Text.IsIntText(s[k + 1..]) then
      Some((Text.ParseInt(s[..k]), Text.ParseInt(s[k + 1..])))
    else None
  }

  /** The progress text determines both counts. */
  lemma ProgressTextRoundTrip(completed: int, total: int)
    ensures ParseProgress(ProgressText(completed, total)) == Some((completed, total))
  {
    var a, b := Text.IntToString(completed), Text.IntToString(total);
    var s := ProgressText(completed, total);
    Text.IntTextChars(completed);
    assert forall i :: 0 <= i < |a| ==> s[i] == a[i];
    assert s[|a|] == '/';
    NoSlashBefore(s, |a|);
    assert s[..|a|] == a;
    assert s[|a| + 1..] == b;
    Text.IntRoundTrip(completed);
    Text.IntRoundTrip(total);
  }

  lemma {:induction false} NoSlashBefore(s: string, k: nat)
    requires k < |s| && s[k] == '/' && forall i :: 0 <= i < k ==> s[i] != '/'
    ensures SlashIndex(s) == k
  {
    if k > 0 {
      NoSlashBefore(s[1..], k - 1);
    }
  }

  datatype ProgressColor = Done | Pending

  /** The progress colour: green exactly when every counted task is completed. */
  function ProgressColorOf(completed: int, total: int): (r: ProgressColor)
    ensures r == Done <==> completed == total
  {
    if completed == total then Done else Pending
  }

  /** The HTML colour of each progress colour. */
  function ColorCode(c: ProgressColor): string
  {
    match c
    case Done => "#00ff00"
    case Pending => "#b4b4b4"
  }

  const COLLAPSED_ARROW: char := '▶'
  const EXPANDED_ARROW: char := '▼'

  /** The text of the collapse indicator: the arrow for the state, a space, the label. */
  function CollapseHtml(collapsed: bool, text: string): (r: string)
    ensures |r| > 6 && r[6] == (if collapsed then COLLAPSED_ARROW else EXPANDED_ARROW)
  {
    "<html>" + [if collapsed then COLLAPSED_ARROW else EXPANDED_ARROW] + " " + text + "</html>"
  }

  datatype HeaderPanel = HeaderPanel(
    sectionName: Option<string>,
    labelText: string,
    progressText: string,
    progressColor: ProgressColor,
    collapsed: bool,
    iconText: string,
    hasCallback: bool)

  /** The indicator always shows the current state. */
  predicate Consistent(h: HeaderPanel)
  {
    h.iconText == CollapseHtml(h.collapsed, h.labelText)
  }

  /** A new header: expanded, without a callback, showing its counts. */
  function NewHeader(name: Option<string>, description: Option<string>, completed: int, total: int): (r: HeaderPanel)
    ensures !r.collapsed && !r.hasCallback && Consistent(r)
    ensures r.sectionName == name && r.labelText == LabelText(name, description)
    ensures ParseProgress(r.progressText) == Some((completed, total))
    ensures r.progressColor == Done <==> completed == total
  {
    ProgressTextRoundTrip(completed, total);
    var labelText := LabelText(name, description);
    HeaderPanel(name, labelText, ProgressText(completed, total), ProgressColorOf(completed, total), false,
      CollapseHtml(false, labelText), false)
  }

  function SetCollapseCallback(h: HeaderPanel): (r: HeaderPanel)
    ensures r.hasCallback && r == h.(hasCallback := true)
  {
    h.(hasCallback := true)
  }

  /** The outcome of a click: the new header and the value passed to the callback, if any. */
  datatype Toggled = Toggled(header: HeaderPanel, fired: Option<bool>)

  /** `toggleCollapsed`: flips the state and passes the new state to the callback, if set. */
  function ToggleCollapsed(h: HeaderPanel): (r: Toggled)
    requires Consistent(h)
    ensures r.header.collapsed == !h.collapsed && Consistent(r.header)
    ensures r.fired.Some? <==> h.hasCallback
    ensures r.fired.Some? ==> r.fired.value == r.header.collapsed
    ensures r.header.(collapsed := h.collapsed, iconText := h.iconText) == h
  {
    var c := !h.collapsed;
    Toggled(h.(collapsed := c, iconText := CollapseHtml(c, h.labelText)), if h.hasCallback then Some(c) else None)
  }

  /** `setCollapsedState`: sets the state and the indicator, never firing the callback. */
  function SetCollapsedState(h: HeaderPanel, collapsed: bool): (r: HeaderPanel)
    requires Consistent(h)
    ensures r.collapsed == collapsed && Consistent(r)
    ensures r.(collapsed := h.collapsed, iconText := h.iconText) == h
  {
    h.(collapsed := collapsed, iconText := CollapseHtml(collapsed, h.labelText))
  }

  /** Two clicks restore the header, and the callback sees both states in turn. */
  lemma ToggleTwiceRestores(h: HeaderPanel)
    requires Consistent(h)
    ensures ToggleCollapsed(ToggleCollapsed(h).header).header == h
    ensures h.hasCallback ==>
      ToggleCollapsed(h).fired == Some(!h.collapsed) && ToggleCollapsed(ToggleCollapsed(h).header).fired == Some(h.collapsed)
  {
  }

  /** Restoring a state that already holds changes nothing. */
  lemma SetCollapsedStateIdempotent(h: HeaderPanel)
    requires Consistent(h)
    ensures SetCollapsedState(h, h.collapsed) == h
  {
  }
}
