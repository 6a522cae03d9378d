/** The booking page's negotiation flow: the confirm and request buttons run
    the round-trip pre-check; when the trip does not fit, a dialog offers a
    second driver or an overnight stay, each of which sets its surcharge flag
    and submits the trip at the new price. */
module Negotiation {
  import opened Opt
  import opened Pricing

  /** Which set of choices the dialog is showing. */
  datatype Modal = Closed | ConfirmOptions | RequestOptions

  /** The form fields read at submission: trimmed texts, the parsed seat count
      and the parsed dates (None when empty or invalid). */
  datatype Form = Form(origin: string, destination: string, seats: int, departure: Option<int>, arrival: Option<int>)

  /** The form check of both submissions: texts, seats and both dates given. */
  predicate Complete(f: Form)
  {
    |f.origin| > 0 && |f.destination| > 0 && f.seats != 0 && f.departure.Some? && f.arrival.Some?
  }

  /** What reaches the server: a trip created as accepted, whose notes record
      the two extras, or a pending request. */
  datatype Submission =
    | AcceptedTrip(form: Form, total: real, secondDriver: bool, overnight: bool)
    | PendingRequest(form: Form, total: real)

  class BookingPage {
    var kilometres: real
    var routeSeconds: real
    var days: int
    var secondDriver: bool
    var overnight: bool
    var modal: Modal
    var sent: seq<Submission>

    /** While the dialog of a confirm attempt is open, no extra has been chosen yet. */
    predicate Valid()
      reads this
    {
      modal == ConfirmOptions ==> !secondDriver && !overnight
    }

    /** The page's price for the current route, days and extras. */
    function CurrentQuote(seats: int): Quote
      reads this
    {
      Cost(kilometres, seats, days, secondDriver, overnight)
    }

    function OneWay(): real
      reads this
    {
      OneWayHours(routeSeconds, kilometres)
    }

    constructor ()
      ensures Valid()
      ensures kilometres == 0.0 && routeSeconds == 0.0 && days == 1
      ensures !secondDriver && !overnight && modal == Closed && sent == []
    {
      kilometres, routeSeconds, days := 0.0, 0.0, 1;
      secondDriver, overnight := false, false;
      modal, sent := Closed, [];
    }

    /** A route was found: its distance and duration replace the old ones. */
    method SetRoute(km: real, seconds: real)
      modifies this
      requires Valid()
      ensures Valid()
      ensures kilometres == km && routeSeconds == seconds
      ensures days == old(days) && secondDriver == old(secondDriver) && overnight == old(overnight)
      ensures modal == old(modal) && sent == old(sent)
    {
      kilometres, routeSeconds := km, seconds;
    }

    /** updateDiasAuto: with both dates, the day count follows them. */
    method UpdateDays(f: Form)
      modifies this
      requires Valid()
      ensures Valid()
      ensures f.departure.Some? && f.arrival.Some? ==> days == DaysBetween(f.departure.value, f.arrival.value)
      ensures f.departure.None? || f.arrival.None? ==> days == old(days)
      ensures kilometres == old(kilometres) && routeSeconds == old(routeSeconds)
      ensures secondDriver == old(secondDriver) && overnight == old(overnight)
      ensures modal == old(modal) && sent == old(sent)
    {
      if f.departure.Some? && f.arrival.Some? {
        days := DaysBetween(f.departure.value, f.arrival.value);
      }
    }

    /** confirmAndSaveTrip: a complete form is sent as an accepted trip at the
        current price; once the server has it, both extras are cleared. */
    method ConfirmAndSave(f: Form, serverOk: bool)
      modifies this
      requires Valid()
      ensures Valid()
      ensures Complete(f) && serverOk ==>
                sent == old(sent) + [AcceptedTrip(f, old(CurrentQuote(f.seats)).total, old(secondDriver), old(overnight))] &&
                !secondDriver && !overnight
      ensures !(Complete(f) && serverOk) ==>
                sent == old(sent) && secondDriver == old(secondDriver) && overnight == old(overnight)
      ensures kilometres == old(kilometres) && routeSeconds == old(routeSeconds) && days == old(days)
      ensures modal == old(modal)
    {
      if !Complete(f) {
        return;
      }
      var q := CurrentQuote(f.seats);
      if serverOk {
        sent := sent + [AcceptedTrip(f, q.total, secondDriver, overnight)];
        secondDriver, overnight := false, false;
      }
    }

    /** createPendingRequest: a complete form is sent as a pending request at
        the current price; the extras stay as they are. */
    method CreatePendingRequest(f: Form, serverOk: bool)
      modifies this
      requires Valid()
      ensures Valid()
      ensures sent == old(sent) + (if Complete(f) && serverOk then [PendingRequest(f, old(CurrentQuote(f.seats)).total)] else [])
      ensures kilometres == old(kilometres) && routeSeconds == old(routeSeconds) && days == old(days)
      ensures secondDriver == old(secondDriver) && overnight == old(overnight) && modal == old(modal)
    {
      if !Complete(f) {
        return;
      }
      var q := CurrentQuote(f.seats);
      if serverOk {
        sent := sent + [PendingRequest(f, q.total)];
      }
    }

    /** onConfirmClick: refresh the day count, clear both extras, and either
        save at the plain price or, when the round trip does not fit, open the
        dialog. */
    method OnConfirmClick(f: Form, serverOk: bool)
      modifies this
      requires Valid() && modal == Closed
      ensures Valid()
      ensures f.departure.Some? && f.arrival.Some? ==> days == DaysBetween(f.departure.value, f.arrival.value)
      ensures f.departure.None? || f.arrival.None? ==> days == old(days)
      ensures !secondDriver && !overnight
      ensures RoundTripFits(OneWay(), f.departure, f.arrival) ==>
                modal == Closed &&
                sent == old(sent) + (if Complete(f) && serverOk
                                     then [AcceptedTrip(f, Cost(kilometres, f.seats, days, false, false).total, false, false)]
                                     else [])
      ensures !RoundTripFits(OneWay(), f.departure, f.arrival) ==> modal == ConfirmOptions && sent == old(sent)
      ensures kilometres == old(kilometres) && routeSeconds == old(routeSeconds)
    {
      UpdateDays(f);
      secondDriver, overnight := false, false;
      if RoundTripFits(OneWay(), f.departure, f.arrival) {
        ConfirmAndSave(f, serverOk);
      } else {
        modal := ConfirmOptions;
      }
    }

    /** The request button (createPendingWithTacho): send the request, or open
        the dialog when the round trip does not fit. The extras are not cleared. */
    method OnGenerateClick(f: Form, serverOk: bool)
      modifies this
      requires Valid() && modal == Closed
      ensures Valid()
      ensures RoundTripFits(OneWay(), f.departure, f.arrival) ==>
                modal == Closed &&
                sent == old(sent) + (if Complete(f) && serverOk then [PendingRequest(f, old(CurrentQuote(f.seats)).total)] else [])
      ensures !RoundTripFits(OneWay(), f.departure, f.arrival) ==> modal == RequestOptions && sent == old(sent)
      ensures kilometres == old(kilometres) && routeSeconds == old(routeSeconds) && days == old(days)
      ensures secondDriver == old(secondDriver) && overnight == old(overnight)
    {
      if RoundTripFits(OneWay(), f.departure, f.arrival) {
        CreatePendingRequest(f, serverOk);
      } else {
        modal := RequestOptions;
      }
    }

    /** The dialog's second-driver choice: close it, set that flag alone, and
        submit again. A confirm attempt then saves exactly one surcharge. */
    method ChooseSecondDriver(f: Form, serverOk: bool)
      modifies this
      requires Valid() && modal != Closed
      ensures Valid() && modal == Closed
      ensures old(modal) == ConfirmOptions ==>
                if Complete(f) && serverOk then
                  sent == old(sent) + [AcceptedTrip(f, Cost(kilometres, f.seats, days, true, false).total, true, false)] &&
                  !secondDriver && !overnight
                else sent == old(sent) && secondDriver && !overnight
      ensures old(modal) == RequestOptions ==>
                secondDriver && overnight == old(overnight) &&
                sent == old(sent) + (if Complete(f) && serverOk
                                     then [PendingRequest(f, Cost(kilometres, f.seats, days, true, old(overnight)).total)]
                                     else [])
      ensures kilometres == old(kilometres) && routeSeconds == old(routeSeconds) && days == old(days)
    {
      var forConfirm := modal == ConfirmOptions;
      modal := Closed;
      secondDriver := true;
      if forConfirm {
        ConfirmAndSave(f, serverOk);
      } else {
        CreatePendingRequest(f, serverOk);
      }
    }

    /** The dialog's overnight choice: close it, set that flag alone, and
        submit again. */
    method ChooseOvernight(f: Form, serverOk: bool)
      modifies this
      requires Valid() && modal != Closed
      ensures Valid() && modal == Closed
      ensures old(modal) == ConfirmOptions ==>
                if Complete(f) && serverOk then
                  sent == old(sent) + [AcceptedTrip(f, Cost(kilometres, f.seats, days, false, true).total, false, true)] &&
                  !secondDriver && !overnight
                else sent == old(sent) && !secondDriver && overnight
      ensures old(modal) == RequestOptions ==>
                overnight && secondDriver == old(secondDriver) &&
                sent == old(sent) + (if Complete(f) && serverOk
                                     then [PendingRequest(f, Cost(kilometres, f.seats, days, old(secondDriver), true).total)]
                                     else [])
      ensures kilometres == old(kilometres) && routeSeconds == old(routeSeconds) && days == old(days)
    {
      var forConfirm := modal == ConfirmOptions;
      modal := Closed;
      overnight := true;
      if forConfirm {
        ConfirmAndSave(f, serverOk);
      } else {
        CreatePendingRequest(f, serverOk);
      }
    }

    /** Cancel, or a click on the backdrop: the dialog closes and nothing else changes. */
    method CancelDialog()
      modifies this
      requires Valid()
      ensures Valid() && modal == Closed
      ensures kilometres == old(kilometres) && routeSeconds == old(routeSeconds) && days == old(days)
      ensures secondDriver == old(secondDriver) && overnight == old(overnight) && sent == old(sent)
    {
      modal := Closed;
    }
  }
}
