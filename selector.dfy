/**
 * The sponsor page's selection-and-dialog state machine: which option is
 * selected (`selectedOption`, nullable) and whether the payment-code dialog is
 * open (`modalVisible`), the two transitions that change them, and what the
 * dialog reads from them.
 */
module Selector {
  import opened Wrappers
  import opened Catalog

  /** The page state as the dialog sees it. */
  datatype View = View(selected: Option<SponsorOption>, dialogVisible: bool)

  /** The state at mount: nothing selected, dialog closed. */
  const Initial: View := View(None, false)

  /** The two user events: a card is clicked, or the dialog is dismissed (cancel or close button). */
  datatype Event = OptionActivated(option: SponsorOption) | DialogDismissed

  /** An open dialog always has an option behind its title and image. */
  ghost predicate DialogHasContent(v: View) {
    v.dialogVisible ==> v.selected.Some?
  }

  /** The selection is empty or one of the catalog's options. */
  ghost predicate SelectionInCatalog(v: View) {
    v.selected.Some? ==> v.selected.value in Options
  }

  /** Every clicked option in the stream comes from the catalog, as the cards do. */
  ghost predicate FromCatalog(es: seq<Event>) {
    forall i :: 0 <= i < |es| && es[i].OptionActivated? ==> es[i].option in Options
  }

  /** One transition: a click selects the option and opens the dialog; a dismissal only hides it. */
  function Step(v: View, e: Event): (w: View) {
    match e
    case OptionActivated(o) => View(Some(o), true)
    case DialogDismissed => v.(dialogVisible := false)
  }

  /**
   * The state after a stream of events, applied first to last. The dialog is
   * open afterwards exactly when the last event was a click (or, for no
   * events, when it was open before).
   */
  function Run(v: View, es: seq<Event>): (r: View)
    ensures r.dialogVisible == if es == [] then v.dialogVisible else es[|es| - 1].OptionActivated?
    decreases |es|
  {
    if es == [] then v else Run(Step(v, es[0]), es[1..])
  }

  /** The option of the last click in the stream, if there was one. */
  function LastActivated(es: seq<Event>): (last: Option<SponsorOption>)
    decreases |es|
  {
    if es == [] then None
    else match es[|es| - 1]
      case OptionActivated(o) => Some(o)
      case DialogDismissed => LastActivated(es[..|es| - 1])
  }

  /** Running a stream and then one more event is the same as stepping the run's result. */
  lemma {:induction false} RunSnoc(v: View, es: seq<Event>, e: Event)
    ensures Run(v, es + [e]) == Step(Run(v, es), e)
    decreases |es|
  {
    if es != [] {
      assert (es + [e])[1..] == es[1..] + [e];
      RunSnoc(Step(v, es[0]), es[1..], e);
    }
  }

  /**
   * After any stream the selection is the option of the last click; with no
   * click in the stream it is whatever it was before (dismissals never clear it).
   */
  lemma {:induction false} RunSelection(v: View, es: seq<Event>)
    ensures Run(v, es).selected == if LastActivated(es).Some? then LastActivated(es) else v.selected
    decreases |es|
  {
    if es != [] {
      var init, last := es[..|es| - 1], es[|es| - 1];
      assert es == init + [last];
      RunSnoc(v, init, last);
      RunSelection(v, init);
    }
  }

  /** An open dialog with nothing selected is never reached, whatever the events. */
  lemma RunKeepsDialogContent(v: View, es: seq<Event>)
    requires DialogHasContent(v)
    ensures DialogHasContent(Run(v, es))
  {
    RunSelection(v, es);
  }

  /** Clicks drawn from the catalog keep the selection inside the catalog. */
  lemma {:induction false} RunKeepsCatalogSelection(v: View, es: seq<Event>)
    requires SelectionInCatalog(v) && FromCatalog(es)
    ensures SelectionInCatalog(Run(v, es))
    decreases |es|
  {
    if es != [] {
      assert FromCatalog(es[1..]) by {
        forall i | 0 <= i < |es[1..]| && es[1..][i].OptionActivated?
          ensures es[1..][i].option in Options
        {
          assert es[1..][i] == es[i + 1];
        }
      }
      RunKeepsCatalogSelection(Step(v, es[0]), es[1..]);
    }
  }

  /** Every state reachable from mount satisfies both invariants. */
  lemma Reachable(es: seq<Event>)
    requires FromCatalog(es)
    ensures DialogHasContent(Run(Initial, es)) && SelectionInCatalog(Run(Initial, es))
  {
    RunKeepsDialogContent(Initial, es);
    RunKeepsCatalogSelection(Initial, es);
  }

  /** A click moves to open-with-that-option from any state. */
  lemma SelectOpens(v: View, o: SponsorOption)
    ensures Step(v, OptionActivated(o)) == View(Some(o), true)
  {
  }

  /** Clicking the same option twice is the same as clicking it once. */
  lemma SelectIdempotent(v: View, o: SponsorOption)
    ensures Step(Step(v, OptionActivated(o)), OptionActivated(o)) == Step(v, OptionActivated(o))
  {
  }

  /** A later click fully replaces an earlier one. */
  lemma SelectReplaces(v: View, o1: SponsorOption, o2: SponsorOption)
    ensures Step(Step(v, OptionActivated(o1)), OptionActivated(o2)) == View(Some(o2), true)
  {
  }

  /** Dismissal hides the dialog and keeps the selection, is idempotent, and changes nothing at mount. */
  lemma CloseKeepsSelection(v: View)
    ensures Step(v, DialogDismissed) == View(v.selected, false)
    ensures Step(Step(v, DialogDismissed), DialogDismissed) == Step(v, DialogDismissed)
    ensures Step(Initial, DialogDismissed) == Initial
  {
  }

  /** Click the first card, dismiss, click the second: the second is shown in an open dialog. */
  lemma ClickCloseClick()
    ensures Run(Initial, [OptionActivated(Options[0]), DialogDismissed, OptionActivated(Options[1])])
            == View(Some(Options[1]), true)
  {
    RunSelection(Initial, [OptionActivated(Options[0]), DialogDismissed, OptionActivated(Options[1])]);
  }

  /**
   * The dialog title: the option's price text, a space, then its label. With
   * nothing selected both optional reads render as nothing and only the
   * space remains.
   */
  function Title(v: View): (title: string) {
    match v.selected
    case None => " "
    case Some(o) => o.description + " " + o.labelText
  }

  /** The dialog image source: the option's asset path, or absent with nothing selected. */
  function ImageSrc(v: View): (src: Option<string>) {
    match v.selected
    case None => None
    case Some(o) => Some(o.image)
  }

  /**
   * The image's alternative text, a template string: the option's price text
   * followed by the "sponsor code" suffix; an absent option interpolates as
   * the word "undefined".
   */
  function ImageAlt(v: View): (alt: string) {
    (match v.selected
     case None => "undefined"
     case Some(o) => o.description) + "赞助码"
  }

  /**
   * In every reachable state with the dialog open, the last event was a click
   * on a catalog option, and the title and image are that option's.
   */
  lemma {:induction false} OpenDialogShowsLastClick(es: seq<Event>)
    requires FromCatalog(es) && Run(Initial, es).dialogVisible
    ensures es != [] && es[|es| - 1].OptionActivated? && es[|es| - 1].option in Options
    ensures Title(Run(Initial, es)) == es[|es| - 1].option.description + " " + es[|es| - 1].option.labelText
    ensures ImageSrc(Run(Initial, es)) == Some(es[|es| - 1].option.image)
  {
    RunSelection(Initial, es);
  }

  /** The page component, holding its two pieces of state. */
  class SponsorPage {
    var modalVisible: bool
    var selectedOption: Option<SponsorOption>

    /** The state as a value. */
    function Current(): (v: View)
      reads this
    {
      View(selectedOption, modalVisible)
    }

    /** The page's invariant: an open dialog has a selection, and the selection is a catalog option. */
    ghost predicate Valid()
      reads this
    {
      DialogHasContent(Current()) && SelectionInCatalog(Current())
    }

    /** Mounting: dialog closed, nothing selected. */
    constructor ()
      ensures Valid() && Current() == Initial
    {
      modalVisible := false;
      selectedOption := None;
    }

    /** A card click: select its option and open the dialog, as one atomic update. */
    method HandleCardClick(option: SponsorOption)
      requires Valid() && option in Options
      modifies this
      ensures Valid()
      ensures selectedOption == Some(option) && modalVisible
      ensures Current() == Step(old(Current()), OptionActivated(option))
    {
      selectedOption := Some(option);
      modalVisible := true;
    }

    /** The dialog's cancel and close handlers: hide it, keep the selection. */
    method HandleClose()
      requires Valid()
      modifies this
      ensures Valid()
      ensures !modalVisible && selectedOption == old(selectedOption)
      ensures Current() == Step(old(Current()), DialogDismissed)
    {
      modalVisible := false;
    }

    /**
     * What the dialog is given: whether it is open, its title, its image and
     * the image's alternative text. When open, all three are those of one
     * catalog option, never the empty reads of a missing selection.
     */
    method ModalProps() returns (open: bool, title: string, src: Option<string>, alt: string)
      requires Valid()
      ensures open == modalVisible
      ensures open ==> (exists i :: 0 <= i < |Options| &&
                          selectedOption == Some(Options[i]) &&
                          title == Options[i].description + " " + Options[i].labelText &&
                          src == Some(Options[i].image) &&
                          alt == Options[i].description + "赞助码")
    {
      open := modalVisible;
      title := Title(Current());
      src := ImageSrc(Current());
      alt := ImageAlt(Current());
    }
  }
}
