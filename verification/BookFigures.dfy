/** Each book's live figures and the guard on its usable cash (computeBookFigures in src/books/bookFigures.ts). */
module BookFigures {
  import opened Wrappers
  import opened BookKeys

  datatype ByBook = ByBook(pluto: real, manual: real) {
    function Of(book: BookKey): real {
      if book == Pluto then pluto else manual
    }
  }

  datatype Input = Input(ledgerPluto: real, ledgerManual: real, unallocated: real, provisional: ByBook, unsettled: ByBook, positions: ByBook, heldAgainstPuts: ByBook,
                         ordersWorking: ByBook, reservePercent: real, ibkrCash: Option<real>, ibkrSettled: Option<real>)

  datatype Figures = Figures(cash: real, bookValue: real, reserve: real, available: Option<real>, availableSettled: Option<real>, limited: bool)

  function CashOf(input: Input, book: BookKey): real {
    (if book == Pluto then input.ledgerPluto else input.ledgerManual) + input.provisional.Of(book)
  }

  function Min(a: real, b: real): real {
    if a <= b then a else b
  }

  function Reserve(percent: real, value: real): real {
    percent / 100.0 * value
  }

  /** IBKR's live cash less both books' and the unallocated. */
  function GapOf(input: Input): Option<real> {
    if input.ibkrCash.None? then None
    else Some(input.ibkrCash.value - (CashOf(input, Pluto) + CashOf(input, Manual) + input.unallocated))
  }

  function SettledOf(input: Input, book: BookKey): real {
    CashOf(input, book) - input.unsettled.Of(book)
  }

  function SettledGapOf(input: Input): Option<real> {
    if input.ibkrSettled.None? then None
    else Some(input.ibkrSettled.value - (SettledOf(input, Pluto) + SettledOf(input, Manual) + input.unallocated))
  }

  /** What a book may use: its cash, less what the account is short of when its cash is behind the books'; nothing is known when the account's is not. */
  function Usable(cash: real, gap: Option<real>): Option<real> {
    if gap.None? then None else Some(cash + Min(0.0, gap.value))
  }

  function Less(amount: Option<real>, taken: real): Option<real> {
    if amount.None? then None else Some(amount.value - taken)
  }

  /** A book's figures: its cash and legs, and its usable cash less its commitments; it is limited exactly when the account is short. */
  predicate IsGuarded(input: Input, book: BookKey, figures: Figures) {
    var commitments := input.heldAgainstPuts.Of(book) + input.ordersWorking.Of(book) + figures.reserve;
    && figures.cash == CashOf(input, book) && figures.bookValue == figures.cash + input.positions.Of(book)
    && figures.reserve == Reserve(input.reservePercent, figures.bookValue)
    && figures.available == Less(Usable(CashOf(input, book), GapOf(input)), commitments)
    && figures.availableSettled == Less(Usable(SettledOf(input, book), SettledGapOf(input)), commitments)
    && (figures.limited <==> GapOf(input).Some? && GapOf(input).value < 0.0)
  }

  /** computeBookFigures: both books' figures, each guarded by the account's cash, and the account's gap. */
  method ComputeBookFigures(input: Input) returns (figures: map<BookKey, Figures>, gap: Option<real>)
    ensures figures.Keys == {Pluto, Manual} && IsGuarded(input, Pluto, figures[Pluto]) && IsGuarded(input, Manual, figures[Manual])
    ensures gap == GapOf(input)
  {
    hide Reserve;
    var cash := ByBook(input.ledgerPluto + input.provisional.pluto, input.ledgerManual + input.provisional.manual);
    var settled := ByBook(cash.pluto - input.unsettled.pluto, cash.manual - input.unsettled.manual);
    var books := [Pluto, Manual];
    figures := map[];
    for i := 0 to 2
      invariant figures.Keys == if i == 0 then {} else if i == 1 then {Pluto} else {Pluto, Manual}
      invariant i > 0 ==> IsGuarded(input, Pluto, figures[Pluto])
      invariant i > 1 ==> IsGuarded(input, Manual, figures[Manual])
    {
      var book := books[i];
      var other := Other(book);
      var value := cash.Of(book) + input.positions.Of(book);
      var reserve := Reserve(input.reservePercent, value);
      var commitments := input.heldAgainstPuts.Of(book) + input.ordersWorking.Of(book) + reserve;
      var available, availableSettled, limited := None, None, false;
      if input.ibkrCash.Some? {
        var left := input.ibkrCash.value - cash.Of(other) - input.unallocated;
        available := Some(Min(cash.Of(book), left) - commitments);
        limited := left < cash.Of(book);
      }
      if input.ibkrSettled.Some? {
        availableSettled := Some(Min(settled.Of(book), input.ibkrSettled.value - settled.Of(other) - input.unallocated) - commitments);
      }
      var own := Figures(cash.Of(book), value, reserve, available, availableSettled, limited);
      assert IsGuarded(input, book, own);
      figures := figures[book := own];
    }
    gap := if input.ibkrCash.None? then None else Some(input.ibkrCash.value - (cash.pluto + cash.manual + input.unallocated));
  }

  /**
   The guard: a book that uses all it may leaves the other book's cash and the unallocated cash in the
   account; and both together, whatever their records say, use no more than the account has beside
   the unallocated.
   */
  lemma UsableCashIsGuarded(input: Input, book: BookKey)
    requires input.ibkrCash.Some?
    ensures var own, other := Usable(CashOf(input, book), GapOf(input)).value, Usable(CashOf(input, Other(book)), GapOf(input)).value;
            && own <= CashOf(input, book)
            && input.ibkrCash.value - own >= CashOf(input, Other(book)) + input.unallocated
            && own + other + input.unallocated <= input.ibkrCash.value
            && (own == CashOf(input, book) <==> GapOf(input).value >= 0.0)
  {}

  /** A book's own figure of what is kept for both. */
  function Own(amounts: ByBook, book: BookKey): real {
    if book == Pluto then amounts.pluto else amounts.manual
  }

  /**
   An order of all that is available, beside what its Puts hold and its orders working, leaves the reserve
   of the book's own cash, and the reserve, the other book's cash and the unallocated in the account; of
   one of the two it leaves just that.
   */
  predicate LeavesJust(available: real, own: real, others: real, account: real, unallocated: real, taken: real, reserve: real) {
    var left, accountLeft := own - taken - available, account - taken - available;
    && left >= reserve && accountLeft >= reserve + others + unallocated
    && (left == reserve || accountLeft == reserve + others + unallocated)
  }

  /**
   A book's figures in dollars: its book value is its cash and its legs, the reserve that percent of it, and
   what is available, of all its cash or of that settled, leaves just what it has to; it is limited exactly
   when the account has less than both books and the unallocated come to.
   */
  lemma AvailableLeavesTheReserve(input: Input, book: BookKey, figures: Figures)
    requires IsGuarded(input, book, figures)
    ensures var ledgers, other := ByBook(input.ledgerPluto, input.ledgerManual), if book == Pluto then Manual else Pluto;
            var own, others := Own(ledgers, book) + Own(input.provisional, book), Own(ledgers, other) + Own(input.provisional, other);
            var taken := Own(input.heldAgainstPuts, book) + Own(input.ordersWorking, book);
            && figures.cash == own && figures.bookValue == own + Own(input.positions, book)
            && figures.reserve * 100.0 == input.reservePercent * figures.bookValue
            && (figures.available.Some? <==> input.ibkrCash.Some?) && (figures.availableSettled.Some? <==> input.ibkrSettled.Some?)
            && (input.ibkrCash.Some? ==> LeavesJust(figures.available.value, own, others, input.ibkrCash.value, input.unallocated, taken, figures.reserve))
            && (input.ibkrSettled.Some? ==> LeavesJust(figures.availableSettled.value, own - Own(input.unsettled, book), others - Own(input.unsettled, other), input.ibkrSettled.value,
                                                       input.unallocated, taken, figures.reserve))
            && (figures.limited <==> input.ibkrCash.Some? && input.ibkrCash.value < own + others + input.unallocated)
  {
    ReserveIsPercent(input.reservePercent, figures.bookValue);
    hide Reserve;
  }

  lemma ReserveIsPercent(percent: real, value: real)
    ensures Reserve(percent, value) * 100.0 == percent * value
  {}
}
