# Sponsor page selection model

A Dafny model of the state machine behind the sponsor page of MuMuAINovel's
web front end (`frontend/src/pages/Sponsor.tsx`). The page lists a fixed
catalog of five sponsorship options as cards. Clicking a card selects that
option and opens a dialog with the option's payment-code image. Dismissing the
dialog, by its cancel control or its close button, hides it and keeps the
selection.

- `wrappers.dfy`, module `Wrappers`: `Option`, which stands for the source's nullable `selectedOption`.
- `catalog.dfy`, module `Catalog`:
  - `Amount` is `Fixed(yuan) | Custom`. The source declares the field as `number | string`; the values the catalog uses are whole numbers and the string `'custom'`.
  - `SponsorOption` is one catalog entry.
  - `Options` is the constant catalog.
  - `CatalogShape` states the catalog's shape.
- `selector.dfy`, module `Selector`:
  - `View` is the page state as a value: the selection and the dialog's visibility.
  - `Step` and `Run` apply one event, or a stream of events, to a `View`. The events are a card click (`OptionActivated`) and a dismissal (`DialogDismissed`).
  - `Title`, `ImageSrc` and `ImageAlt` give what the dialog reads through the optional `selectedOption?.…` accesses.
  - The class `SponsorPage` holds the two mutable fields, `modalVisible` and `selectedOption`. Its methods are the click handler `HandleCardClick`, the close handler `HandleClose`, and the read-only `ModalProps`, which gives what the dialog is handed. Each handler is specified by `Step` on the old state, and each handler keeps the invariant `Valid()`. `Valid()` says an open dialog has a selection, and the selection is a catalog option.

The source field `label` is called `labelText` here, because `label` is a Dafny keyword.

The dialog title is written in JSX as `{selectedOption?.description} {selectedOption?.label}`. So it is the description, one space, then the label. With no selection, both reads render as nothing and only the space is left. The alternative text is a template string. There, a missing option shows up as the text `undefined`.

## Model

| member | source | states |
|---|---|---|
| Catalog.CatalogShape | frontend/src/pages/Sponsor.tsx:21-27 | The catalog has exactly five entries. Labels are pairwise distinct, and so are images. Only the last entry is `Custom`. The other four are fixed amounts 5, 10, 20 and 50, strictly ascending. |
| Selector.Run | frontend/src/pages/Sponsor.tsx:48-54 | After any stream of events, the dialog is open exactly when the last event was a card click. With no events, it is open exactly when it was open before. |
| Selector.RunSelection | frontend/src/pages/Sponsor.tsx:51-54 | After any stream of events, the selection is the option of the last click. If the stream has no click, the selection is what it was before. Dismissals never clear it. |
| Selector.RunKeepsDialogContent | frontend/src/pages/Sponsor.tsx:48-54 | From any state where an open dialog has a selection, no sequence of clicks and dismissals reaches an open dialog without one. |
| Selector.RunKeepsCatalogSelection | frontend/src/pages/Sponsor.tsx:134-138 | When every clicked option comes from the catalog, as the cards guarantee, the selection stays a catalog option or none. |
| Selector.Reachable | frontend/src/pages/Sponsor.tsx:48-54 | Every state reachable from the mount state satisfies both invariants: an open dialog has a selection, and the selection is in the catalog. |
| Selector.SelectOpens | frontend/src/pages/Sponsor.tsx:51-54 | From any state, a click on option `o` gives selection `o` with the dialog open. |
| Selector.SelectIdempotent | frontend/src/pages/Sponsor.tsx:51-54 | Clicking the same option twice gives the same state as clicking it once. |
| Selector.SelectReplaces | frontend/src/pages/Sponsor.tsx:51-54 | A click on `o2` after a click on `o1` leaves `o2` selected and the dialog open. Nothing of `o1` remains. |
| Selector.CloseKeepsSelection | frontend/src/pages/Sponsor.tsx:214-216 | Dismissal hides the dialog and keeps the selection, not resetting it to none. Dismissing twice is the same as once. Dismissing in the mount state changes nothing. |
| Selector.ClickCloseClick | frontend/src/pages/Sponsor.tsx:48-54 | Starting from mount, clicking the first card, dismissing, then clicking the second card ends with the second option selected and the dialog open. |
| Selector.OpenDialogShowsLastClick | frontend/src/pages/Sponsor.tsx:204-225 | In every reachable state with the dialog open, the last event was a click on a catalog option. The dialog's title is that option's description, a space, and its label. Its image is that option's image. |
| Selector.SponsorPage.constructor | frontend/src/pages/Sponsor.tsx:48-49 | At mount the dialog is closed, nothing is selected, and the invariant holds. |
| Selector.SponsorPage.HandleCardClick | frontend/src/pages/Sponsor.tsx:51-54 | A card click sets the selection to the clicked catalog option and opens the dialog, from either state. The invariant is kept. |
| Selector.SponsorPage.HandleClose | frontend/src/pages/Sponsor.tsx:213-216 | The cancel and close handlers hide the dialog and leave the selection unchanged. The invariant is kept. |
| Selector.SponsorPage.ModalProps | frontend/src/pages/Sponsor.tsx:204-226 | The dialog's `open` flag is `modalVisible`. When it is open, the title, image source and alternative text are all built from one catalog option, the selected one. |

## Left out

- Layout and styling are left out: cards, grid breakpoints, typography, dividers and colours (`Sponsor.tsx:56-243`). They hold no state.
- The hover handlers are left out (`Sponsor.tsx:150-159`). They only change DOM styles for a visual effect.
- The `benefits` list and its icons are left out. They are fixed display data with no operations.
- The dialog and image components' own behaviour is left out: focus handling, backdrop and asset loading. Image paths are opaque strings.
- React's state hooks, re-rendering and setter batching are left out. The two setter calls in the click handler are one atomic method.
- The `amount` field is narrowed (`Sponsor.tsx:15`). The source allows any number or any string. The model allows natural numbers and the single tag `'custom'`, which are the only values the catalog holds (`Sponsor.tsx:22-26`). Nothing reads `amount`, so no behaviour depends on the narrowing.
- Payment is left out. `Custom` is only a tag with no number behind it.
- Selector.SponsorPage.HandleCardClick: requires its option to be in the catalog. That is not a defensive check: the source never passes any other option (`Sponsor.tsx:134-138`) and has no rejecting path, so none is modelled. The pure `Step` accepts any option.
