/**
 * The client's batch export (`downloadAllDocxZip` / `downloadAllPdfZip` in app.js) and the
 * download banner it drives (`setDownloadStatus`, `updateDownloadProgress`): the cards are
 * fetched one after the other, each answer is stored in the archive under
 * `<model>-item-<item>.<ext>`, the banner shows the share of cards done, and a click on the
 * cancel button stops the batch before the next card.
 */
module Export {
  import opened Wrappers
  import opened Text
  import TextTable

  type Bytes = seq<bv8>

  /** The two export formats; each has its own route, entry extension, archive and banners. */
  datatype Kind = Docx | Pdf

  function Route(kind: Kind): string {
    match kind
    case Docx => "/api/generate/docx"
    case Pdf => "/api/generate/pdf"
  }

  function Extension(kind: Kind): string {
    match kind
    case Docx => ".docx"
    case Pdf => ".pdf"
  }

  /** The name the archive is offered under. */
  function ArchiveName(kind: Kind): string {
    match kind
    case Docx => "plaquinhas-docx.zip"
    case Pdf => "plaquinhas-pdf.zip"
  }

  /** The banner label while the batch runs. */
  function BatchLabel(kind: Kind): string {
    match kind
    case Docx => "Gerando DOCX em lote"
    case Pdf => "Gerando PDF em lote"
  }

  /** The banner shown when a batch fails for a reason other than cancellation. */
  function ErrorBanner(kind: Kind): string {
    match kind
    case Docx => "Falha ao gerar ZIP DOCX. Tente novamente mais tarde."
    case Pdf => "Falha ao gerar ZIP PDF. Tente novamente mais tarde."
  }

  // ------------------------------------------------------------------ progress

  /**
   * `Math.round(num / den)`: the nearest integer, halves rounded up. The percentage the
   * page passes is a fraction, so it is modelled as the exact quotient num / den.
   */
  function RoundHalfUp(num: int, den: int): (r: int)
    requires den > 0
    ensures 2 * den * r <= 2 * num + den < 2 * den * (r + 1)
  {
    (2 * num + den) / (2 * den)
  }

  /** `Math.max(0, Math.min(100, x))`. */
  function Clamp(x: int): (p: nat)
    ensures p <= 100
    ensures 0 <= x <= 100 ==> p == x
    ensures x < 0 ==> p == 0
    ensures x > 100 ==> p == 100
  {
    if x < 0 then 0 else if x > 100 then 100 else x
  }

  /** The percentage the progress bar is set to for the fraction num / den. */
  function ProgressPercent(num: int, den: int): (p: nat)
    requires den > 0
    ensures p <= 100
  {
    Clamp(RoundHalfUp(num, den))
  }

  /** The banner text `${base} — ${p}%`. */
  function StatusText(base: string, p: nat): string {
    base + " — " + NatToString(p) + "%"
  }

  const DefaultLabel := "Baixando…"

  /** The share of a batch of `total` cards after `done` of them: k·100/total, rounded, within 0..100. */
  lemma BatchProgress(done: nat, total: nat)
    requires 0 < total && done <= total
    ensures ProgressPercent(done * 100, total) == RoundHalfUp(done * 100, total)
    ensures done == total ==> ProgressPercent(done * 100, total) == 100
    ensures done == 0 ==> ProgressPercent(done * 100, total) == 0
  {
    var d := 2 * total;
    var r := RoundHalfUp(done * 100, total);
    assert d * r <= 200 * done + total < d * (r + 1);
    if r >= 101 {
      MulMonotone(d, 101, r);
    }
    if r < 0 {
      MulMonotone(d, r + 1, 0);
    }
    if done == total && r <= 99 {
      MulMonotone(d, r + 1, 100);
    }
    if done == 0 && r >= 1 {
      MulMonotone(d, 1, r);
    }
  }

  lemma MulMonotone(a: int, x: int, y: int)
    requires a >= 0 && x <= y
    ensures a * x <= a * y
  {
  }

  /** The progress bar never moves backwards while the numerator grows. */
  lemma ProgressMonotone(a: int, b: int, den: int)
    requires den > 0 && a <= b
    ensures ProgressPercent(a, den) <= ProgressPercent(b, den)
  {
    var ra := RoundHalfUp(a, den);
    var rb := RoundHalfUp(b, den);
    if ra > rb {
      MulMonotone(2 * den, rb + 1, ra);
    }
  }

  // ------------------------------------------------------------------ the banner state

  /**
   * The download banner together with `state.downloadCanceled`: the caption kept in
   * `banner.dataset.label`, the status text, the bar's width and the cancel flag.
   */
  class Downloader {
    var caption: string
    var text: string
    var percent: nat
    var canceled: bool

    constructor()
      ensures caption == "" && text == "" && percent == 0 && !canceled
    {
      caption := "";
      text := "";
      percent := 0;
      canceled := false;
    }

    /** `setDownloadStatus`: a new caption (the default one when empty), the bar at 0%, the flag cleared. */
    method SetDownloadStatus(t: string)
      modifies this
      ensures caption == (if t == "" then DefaultLabel else t)
      ensures text == StatusText(caption, 0) && percent == 0 && !canceled
    {
      caption := if t == "" then DefaultLabel else t;
      text := StatusText(caption, 0);
      percent := 0;
      canceled := false;
    }

    /** `updateDownloadProgress`: the bar and the text show the clamped, rounded percentage. */
    method UpdateDownloadProgress(num: int, den: int, l: string)
      requires den > 0
      modifies this
      ensures percent == ProgressPercent(num, den) && percent <= 100
      ensures text == StatusText(if l != "" then l else if old(caption) != "" then old(caption) else DefaultLabel, percent)
      ensures caption == old(caption) && canceled == old(canceled)
    {
      percent := ProgressPercent(num, den);
      var base := if l != "" then l else if caption != "" then caption else DefaultLabel;
      text := StatusText(base, percent);
    }

    /** The cancel button's handler: it raises the flag (and aborts the request in flight). */
    method CancelClicked()
      modifies this
      ensures canceled
      ensures caption == old(caption) && text == old(text) && percent == old(percent)
    {
      canceled := true;
    }

    /**
     * One batch export over the rendered cards. `fetches[i]` is what fetching card i
     * gives: the bytes, or the error thrown; each also says whether the cancel button
     * was clicked while that card was in flight.
     */
    method DownloadAll(cards: seq<Card>, kind: Kind, fetches: seq<Fetch>) returns (outcome: Outcome)
      requires |fetches| == |cards|
      modifies this
      ensures outcome == Batch(cards, kind, fetches).outcome
      ensures canceled == Batch(cards, kind, fetches).canceled
      ensures caption == BatchLabel(kind)
      ensures outcome.Failed? ==> text == ErrorBanner(kind)
      ensures !outcome.Failed? ==> text == StatusText(caption, percent)
      ensures percent == Progress(Batch(cards, kind, fetches).stored, |cards|)
    {
      var total := if |cards| == 0 then 1 else |cards|;
      var entries: map<string, Bytes> := map[];
      var lbl := BatchLabel(kind);
      SetDownloadStatus(lbl);
      var idx := 0;
      var i := 0;
      while i < |cards|
        invariant i <= |cards| && idx == i
        invariant caption == lbl && text == StatusText(lbl, percent)
        invariant percent == Progress(i, |cards|)
        invariant canceled ==> Batch(cards, kind, fetches) == Run(Dismissed, i, true)
        invariant !canceled ==> Batch(cards, kind, fetches) == BatchFrom(cards, kind, fetches, i, entries)
      {
        if canceled {
          break;
        }
        var card := cards[i];
        match fetches[i]
        case Rejected(message, clicked) =>
          if clicked {
            CancelClicked();
          }
          outcome := CatchOutcome(kind, message, canceled);
          if outcome.Failed? {
            text := outcome.banner;
          }
          return;
        case Delivered(data, clicked) =>
          if clicked {
            CancelClicked();
          }
          entries := entries[EntryName(card, kind) := data];
          idx := idx + 1;
          UpdateDownloadProgress(idx * 100, total, lbl);
        i := i + 1;
      }
      if !canceled {
        outcome := Saved(ArchiveName(kind), entries);
      } else {
        outcome := Dismissed;
      }
    }
  }

  // ------------------------------------------------------------------ cards and names

  /** A rendered card's data attributes: `item` is `String(it.item)`. */
  datatype Card = Card(item: string, model: string, valor: string)

  /** `renderCards`: one card per parsed item, in order, all with the selected model. */
  function CardsFor(items: seq<TextTable.Item>, model: string): (cards: seq<Card>)
    ensures |cards| == |items|
  {
    if items == [] then []
    else [Card(NatToString(items[0].item), model, items[0].valor)] + CardsFor(items[1..], model)
  }

  /** Each card carries its item's number as decimal text, its value and the model. */
  lemma {:induction false} CardsForItems(items: seq<TextTable.Item>, model: string, i: nat)
    requires i < |items|
    ensures CardsFor(items, model)[i].item == NatToString(items[i].item)
    ensures DigitsValue(CardsFor(items, model)[i].item) == items[i].item
    ensures CardsFor(items, model)[i].valor == items[i].valor
    ensures CardsFor(items, model)[i].model == model
  {
    if i == 0 {
      NatToStringRoundTrip(items[0].item);
    } else {
      CardsForItems(items[1..], model, i - 1);
      assert CardsFor(items, model)[i] == CardsFor(items[1..], model)[i - 1];
    }
  }

  /** The archive entry name `${model}-item-${item}.docx` (or `.pdf`). */
  function EntryName(card: Card, kind: Kind): string {
    card.model + "-item-" + card.item + Extension(kind)
  }

  /** For one model and format, two cards get the same entry exactly when their items agree. */
  lemma EntryNameInjective(a: Card, b: Card, kind: Kind)
    requires a.model == b.model
    ensures EntryName(a, kind) == EntryName(b, kind) <==> a.item == b.item
  {
    var p := a.model + "-item-";
    var e := Extension(kind);
    if EntryName(a, kind) == EntryName(b, kind) {
      assert |a.item| == |b.item|;
      forall k | 0 <= k < |a.item|
        ensures a.item[k] == b.item[k]
      {
        assert EntryName(a, kind)[|p| + k] == a.item[k];
        assert EntryName(b, kind)[|p| + k] == b.item[k];
      }
    }
  }

  /** Cards made from distinct item numbers never overwrite each other's entries. */
  lemma DistinctItemsDistinctNames(items: seq<TextTable.Item>, model: string, kind: Kind, i: nat, j: nat)
    requires i < |items| && j < |items| && items[i].item != items[j].item
    ensures EntryName(CardsFor(items, model)[i], kind) != EntryName(CardsFor(items, model)[j], kind)
  {
    var cards := CardsFor(items, model);
    CardsForItems(items, model, i);
    CardsForItems(items, model, j);
    EntryNameInjective(cards[i], cards[j], kind);
  }

  // ------------------------------------------------------------------ the batch

  /**
   * What fetching one card gives: the bytes of the answer, or the error thrown (the
   * server's `error` text, a network error, or `cancelado` when the read failed after the
   * request was aborted); `clicked` records a cancel click while the card was in flight.
   */
  datatype Fetch = Delivered(data: Bytes, clicked: bool) | Rejected(message: string, clicked: bool)

  /** How a batch ends: the archive offered for saving, the banner hidden, or an error banner. */
  datatype Outcome = Saved(archive: string, entries: map<string, Bytes>) | Dismissed | Failed(banner: string)

  /** The catch block: an error mentioning `cancelado`, or one after a cancel click, is silent. */
  function CatchOutcome(kind: Kind, message: string, canceled: bool): (o: Outcome)
    ensures o.Failed? <==> !canceled && !Contains(ToLowerAscii(message), "cancelado")
    ensures o.Failed? ==> o.banner == ErrorBanner(kind)
    ensures !o.Saved?
  {
    if Contains(ToLowerAscii(message), "cancelado") || canceled then Dismissed else Failed(ErrorBanner(kind))
  }

  /** An error whose text holds `cancelado` (as the one thrown for an aborted read does) is never shown. */
  lemma CanceledErrorIsSilent(kind: Kind, message: string, i: nat, canceled: bool)
    requires HasAt(message, i, "cancelado")
    ensures CatchOutcome(kind, message, canceled) == Dismissed
  {
    var lower := ToLowerAscii(message);
    forall k | 0 <= k < 9
      ensures lower[i + k] == "cancelado"[k]
    {
      assert message[i + k] == "cancelado"[k];
    }
    assert HasAt(lower, i, "cancelado");
  }

  /** The end of a batch: its outcome, how many cards were stored, and the cancel flag. */
  datatype Run = Run(outcome: Outcome, stored: nat, canceled: bool)

  /** The bar after `stored` of `n` cards: untouched (0%) before the first, then stored·100/max(n,1). */
  function Progress(stored: nat, n: nat): nat {
    if stored == 0 then 0 else ProgressPercent(stored * 100, if n == 0 then 1 else n)
  }

  /** The batch from card i on, with `entries` already in the archive. */
  function BatchFrom(cards: seq<Card>, kind: Kind, fetches: seq<Fetch>, i: nat, entries: map<string, Bytes>): (r: Run)
    requires |fetches| == |cards| && i <= |cards|
    decreases |cards| - i
  {
    if i == |cards| then Run(Saved(ArchiveName(kind), entries), i, false)
    else match fetches[i]
      case Rejected(message, clicked) => Run(CatchOutcome(kind, message, clicked), i, clicked)
      case Delivered(data, clicked) =>
        var next := entries[EntryName(cards[i], kind) := data];
        if clicked then Run(Dismissed, i + 1, true) else BatchFrom(cards, kind, fetches, i + 1, next)
  }

  function Batch(cards: seq<Card>, kind: Kind, fetches: seq<Fetch>): Run
    requires |fetches| == |cards|
  {
    BatchFrom(cards, kind, fetches, 0, map[])
  }

  /** A card delivered with no cancel click in the meantime. */
  predicate Clean(f: Fetch) { f.Delivered? && !f.clicked }

  lemma {:induction false} BatchFromSavedIff(cards: seq<Card>, kind: Kind, fetches: seq<Fetch>, i: nat, entries: map<string, Bytes>)
    requires |fetches| == |cards| && i <= |cards|
    ensures BatchFrom(cards, kind, fetches, i, entries).outcome.Saved? <==> forall j | i <= j < |fetches| :: Clean(fetches[j])
    decreases |cards| - i
  {
    if i < |cards| && Clean(fetches[i]) {
      BatchFromSavedIff(cards, kind, fetches, i + 1, entries[EntryName(cards[i], kind) := fetches[i].data]);
    }
  }

  /** The archive is offered exactly when every card arrived and cancel was never clicked. */
  lemma BatchSavedIff(cards: seq<Card>, kind: Kind, fetches: seq<Fetch>)
    requires |fetches| == |cards|
    ensures Batch(cards, kind, fetches).outcome.Saved? <==> forall j | 0 <= j < |fetches| :: Clean(fetches[j])
    ensures Batch(cards, kind, fetches).outcome.Saved? ==> Batch(cards, kind, fetches).outcome.archive == ArchiveName(kind)
  {
    BatchFromSavedIff(cards, kind, fetches, 0, map[]);
    BatchFromArchive(cards, kind, fetches, 0, map[]);
  }

  lemma {:induction false} BatchFromArchive(cards: seq<Card>, kind: Kind, fetches: seq<Fetch>, i: nat, entries: map<string, Bytes>)
    requires |fetches| == |cards| && i <= |cards|
    ensures BatchFrom(cards, kind, fetches, i, entries).outcome.Saved? ==> BatchFrom(cards, kind, fetches, i, entries).outcome.archive == ArchiveName(kind)
    decreases |cards| - i
  {
    if i < |cards| && Clean(fetches[i]) {
      BatchFromArchive(cards, kind, fetches, i + 1, entries[EntryName(cards[i], kind) := fetches[i].data]);
    }
  }

  /**
   * Cards are processed in order and the batch stops at the first failure or right after
   * the card during which cancel was clicked: the stored cards are a prefix of delivered
   * ones, only the last of which may have seen a click, and nothing after it is stored.
   */
  lemma {:induction false} BatchFromStopsAtCancel(cards: seq<Card>, kind: Kind, fetches: seq<Fetch>, i: nat, entries: map<string, Bytes>)
    requires |fetches| == |cards| && i <= |cards|
    ensures var r := BatchFrom(cards, kind, fetches, i, entries);
      i <= r.stored <= |cards|
      && (forall j | i <= j < r.stored :: fetches[j].Delivered?)
      && (forall j | i <= j < r.stored - 1 :: !fetches[j].clicked)
      && (r.stored < |cards| ==> fetches[r.stored].Rejected? || (r.stored > i && fetches[r.stored - 1].clicked))
      && (r.canceled <==> ((r.stored < |cards| && fetches[r.stored].Rejected? && fetches[r.stored].clicked)
                           || (r.stored > i && fetches[r.stored - 1].clicked)))
      && (r.outcome.Saved? ==> r.stored == |cards|)
    decreases |cards| - i
  {
    if i < |cards| && Clean(fetches[i]) {
      BatchFromStopsAtCancel(cards, kind, fetches, i + 1, entries[EntryName(cards[i], kind) := fetches[i].data]);
    }
  }

  lemma BatchStopsAtCancel(cards: seq<Card>, kind: Kind, fetches: seq<Fetch>)
    requires |fetches| == |cards|
    ensures var r := Batch(cards, kind, fetches);
      r.stored <= |cards|
      && (forall j | 0 <= j < r.stored :: fetches[j].Delivered?)
      && (forall j | 0 <= j < r.stored - 1 :: !fetches[j].clicked)
      && (r.stored < |cards| ==> fetches[r.stored].Rejected? || (r.stored > 0 && fetches[r.stored - 1].clicked))
      && (r.outcome.Saved? ==> r.stored == |cards|)
  {
    BatchFromStopsAtCancel(cards, kind, fetches, 0, map[]);
  }

  /** When the archive is offered for a non-empty batch, the bar stands at 100%. */
  lemma SavedAtFullProgress(cards: seq<Card>, kind: Kind, fetches: seq<Fetch>)
    requires |fetches| == |cards| && |cards| > 0
    requires Batch(cards, kind, fetches).outcome.Saved?
    ensures Progress(Batch(cards, kind, fetches).stored, |cards|) == 100
  {
    BatchStopsAtCancel(cards, kind, fetches);
    BatchProgress(|cards|, |cards|);
  }

  /** No card from i on is stored under `n`. */
  predicate NotNamedFrom(cards: seq<Card>, kind: Kind, i: nat, n: string) {
    forall j | i <= j < |cards| :: EntryName(cards[j], kind) != n
  }

  /** Card j is the last card whose entry has its name. */
  predicate LastWithName(cards: seq<Card>, kind: Kind, j: nat)
    requires j < |cards|
  {
    NotNamedFrom(cards, kind, j + 1, EntryName(cards[j], kind))
  }

  /** The archive of a batch from card i on holds the earlier names and the names of the later cards, and no others. */
  lemma {:induction false} BatchFromKeys(cards: seq<Card>, kind: Kind, fetches: seq<Fetch>, i: nat, entries: map<string, Bytes>)
    requires |fetches| == |cards| && i <= |cards|
    requires BatchFrom(cards, kind, fetches, i, entries).outcome.Saved?
    ensures var z := BatchFrom(cards, kind, fetches, i, entries).outcome.entries;
      (forall n | n in z :: n in entries || exists j | i <= j < |cards| :: EntryName(cards[j], kind) == n)
      && (forall j | i <= j < |cards| :: EntryName(cards[j], kind) in z)
      && entries.Keys <= z.Keys
    decreases |cards| - i
  {
    if i < |cards| {
      var next := entries[EntryName(cards[i], kind) := fetches[i].data];
      BatchFromKeys(cards, kind, fetches, i + 1, next);
    }
  }

  /** A name no card from i on uses keeps the bytes it had before card i. */
  lemma {:induction false} BatchFromKeeps(cards: seq<Card>, kind: Kind, fetches: seq<Fetch>, i: nat, entries: map<string, Bytes>, n: string)
    requires |fetches| == |cards| && i <= |cards|
    requires BatchFrom(cards, kind, fetches, i, entries).outcome.Saved?
    requires n in entries && NotNamedFrom(cards, kind, i, n)
    ensures n in BatchFrom(cards, kind, fetches, i, entries).outcome.entries
    ensures BatchFrom(cards, kind, fetches, i, entries).outcome.entries[n] == entries[n]
    decreases |cards| - i
  {
    if i < |cards| {
      var next := entries[EntryName(cards[i], kind) := fetches[i].data];
      assert NotNamedFrom(cards, kind, i + 1, n);
      BatchFromKeeps(cards, kind, fetches, i + 1, next, n);
    }
  }

  /** The entry of the last card with a given name holds that card's bytes. */
  lemma {:induction false} BatchFromLastWins(cards: seq<Card>, kind: Kind, fetches: seq<Fetch>, i: nat, entries: map<string, Bytes>, j: nat)
    requires |fetches| == |cards| && i <= j < |cards|
    requires BatchFrom(cards, kind, fetches, i, entries).outcome.Saved?
    requires LastWithName(cards, kind, j)
    ensures EntryName(cards[j], kind) in BatchFrom(cards, kind, fetches, i, entries).outcome.entries
    ensures fetches[j] == Delivered(BatchFrom(cards, kind, fetches, i, entries).outcome.entries[EntryName(cards[j], kind)], false)
    decreases |cards| - i
  {
    BatchFromSavedIff(cards, kind, fetches, i, entries);
    var next := entries[EntryName(cards[i], kind) := fetches[i].data];
    if j == i {
      BatchFromKeeps(cards, kind, fetches, i + 1, next, EntryName(cards[i], kind));
    } else {
      BatchFromLastWins(cards, kind, fetches, i + 1, next, j);
    }
  }

  /**
   * A saved archive holds exactly one entry per distinct card name, and each entry holds
   * the bytes of the last card with that name (`zip.file` replaces an existing entry).
   */
  lemma BatchEntries(cards: seq<Card>, kind: Kind, fetches: seq<Fetch>)
    requires |fetches| == |cards|
    requires Batch(cards, kind, fetches).outcome.Saved?
    ensures var z := Batch(cards, kind, fetches).outcome.entries;
      (forall n | n in z :: exists j | 0 <= j < |cards| :: EntryName(cards[j], kind) == n)
      && (forall j | 0 <= j < |cards| :: EntryName(cards[j], kind) in z)
      && (forall j | 0 <= j < |cards| && LastWithName(cards, kind, j) :: fetches[j] == Delivered(z[EntryName(cards[j], kind)], false))
  {
    BatchFromKeys(cards, kind, fetches, 0, map[]);
    forall j | 0 <= j < |cards| && LastWithName(cards, kind, j)
      ensures fetches[j] == Delivered(Batch(cards, kind, fetches).outcome.entries[EntryName(cards[j], kind)], false)
    {
      BatchFromLastWins(cards, kind, fetches, 0, map[], j);
    }
  }
}
