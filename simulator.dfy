/** The simulator page: the list of trains configured for a run, the form
    they are added from, removal by id, reset, and when the run button is
    enabled. */
module Simulator {
  import opened Seqs
  import opened Numeric

  datatype TrainType = Express | Passenger | Goods

  /** `SimulationTrain`. */
  datatype SimulationTrain = SimulationTrain(
    id: string,
    number: string,
    name: string,
    passengers: int,
    speed: int,
    kind: TrainType,
    startTime: string)

  /** The `newTrain` form state: every input still a string. */
  datatype TrainForm = TrainForm(
    number: string,
    name: string,
    passengers: string,
    speed: string,
    kind: TrainType,
    startTime: string)

  const DefaultPassengers := 500
  const DefaultSpeed := 80

  /** The form the page starts with and `addTrain` restores. */
  const EmptyForm := TrainForm("", "", "", "", Express, "14:00")

  /** The guard of `addTrain`: the number and the name must both be
      non-empty (an empty string is falsy). */
  predicate CanAdd(f: TrainForm) {
    f.number != "" && f.name != ""
  }

  /** A train is added only with a number and a name, and the form an add
      restores fails the guard, so pressing Add again adds nothing. */
  lemma AddNeedsNumberAndName(f: TrainForm, id: string)
    ensures CanAdd(f) ==> TrainFromForm(f, id).number != "" && TrainFromForm(f, id).name != ""
    ensures !CanAdd(f) ==> f.number == "" || f.name == ""
    ensures !CanAdd(EmptyForm)
  {
  }

  /** The train `addTrain` builds from the form: number, name, type and
      start time as entered; passengers and speed read with `parseInt`,
      falling back to 500 and 80 when that gives NaN or 0. */
  function TrainFromForm(f: TrainForm, id: string): (t: SimulationTrain)
    ensures t.id == id && t.number == f.number && t.name == f.name
    ensures t.kind == f.kind && t.startTime == f.startTime
    ensures t.passengers != 0 && t.speed != 0
    ensures t.passengers == DefaultPassengers || ParseInt(f.passengers) == Some(t.passengers)
    ensures ParseInt(f.passengers).None? || ParseInt(f.passengers) == Some(0) ==> t.passengers == DefaultPassengers
    ensures ParseInt(f.passengers).Some? && ParseInt(f.passengers).value != 0 ==> t.passengers == ParseInt(f.passengers).value
    ensures t.speed == DefaultSpeed || ParseInt(f.speed) == Some(t.speed)
    ensures ParseInt(f.speed).None? || ParseInt(f.speed) == Some(0) ==> t.speed == DefaultSpeed
    ensures ParseInt(f.speed).Some? && ParseInt(f.speed).value != 0 ==> t.speed == ParseInt(f.speed).value
  {
    SimulationTrain(id, f.number, f.name,
      ParseIntOr(f.passengers, DefaultPassengers), ParseIntOr(f.speed, DefaultSpeed), f.kind, f.startTime)
  }

  /** The input `0` is falsy once parsed, so it gives the default: 500
      passengers, or a speed of 80. */
  lemma ZeroInputGivesDefault(f: TrainForm, id: string)
    requires f.passengers == "0" && f.speed == "0"
    ensures TrainFromForm(f, id).passengers == DefaultPassengers
    ensures TrainFromForm(f, id).speed == DefaultSpeed
  {
    ParseIntOrOfNumeral(0, DefaultPassengers);
    ParseIntOrOfNumeral(0, DefaultSpeed);
    assert IntToString(0) == "0";
  }

  /** Any non-zero count typed as its decimal numeral is taken as it is. */
  lemma NumeralInputIsRead(f: TrainForm, id: string, passengers: int, speed: int)
    requires passengers != 0 && speed != 0
    requires f.passengers == IntToString(passengers) && f.speed == IntToString(speed)
    ensures TrainFromForm(f, id).passengers == passengers
    ensures TrainFromForm(f, id).speed == speed
  {
    ParseIntOrOfNumeral(passengers, DefaultPassengers);
    ParseIntOrOfNumeral(speed, DefaultSpeed);
  }

  /** Input that starts with no digit, sign or white space (an empty field,
      say) is NaN once parsed, so it gives the default. */
  lemma NonNumericInputGivesDefault(f: TrainForm, id: string)
    requires f.passengers == [] || var c := f.passengers[0];
      !IsStrWhiteSpace(c) && c != '-' && c != '+' && DigitValue(c) >= 10
    ensures ParseInt(f.passengers).None?
    ensures TrainFromForm(f, id).passengers == DefaultPassengers
  {
  }

  /** The callback `removeTrain` hands to `filter`. */
  function IdIsNot(id: string): SimulationTrain -> bool {
    (t: SimulationTrain) => t.id != id
  }

  /** The list `removeTrain(id)` builds: every train with that id is gone,
      every other train stays. */
  function WithoutTrain(trains: seq<SimulationTrain>, id: string): (r: seq<SimulationTrain>)
    ensures |r| <= |trains|
    ensures forall t :: t in r <==> t in trains && t.id != id
  {
    FilterMembers(IdIsNot(id), trains);
    Filter(IdIsNot(id), trains)
  }

  /** The trains that remain keep their relative order: the k-th remaining
      train is the one at the k-th kept position, and those positions
      increase. */
  lemma RemoveKeepsOrder(trains: seq<SimulationTrain>, id: string)
    ensures var r, idx := WithoutTrain(trains, id), KeptIndices(IdIsNot(id), trains);
      && |idx| == |r|
      && (forall k :: 0 <= k < |idx| ==> idx[k] < |trains| && r[k] == trains[idx[k]])
      && (forall k, m :: 0 <= k < m < |idx| ==> idx[k] < idx[m])
      && (forall i :: 0 <= i < |trains| ==> (trains[i].id != id <==> i in idx))
  {
    KeptIndicesSelect(IdIsNot(id), trains);
    KeptIndicesIncrease(IdIsNot(id), trains);
    KeptIndicesExactly(IdIsNot(id), trains);
  }

  /** Removing an id no train has changes nothing. */
  lemma RemoveUnknownIdKeepsAll(trains: seq<SimulationTrain>, id: string)
    requires forall t :: t in trains ==> t.id != id
    ensures WithoutTrain(trains, id) == trains
  {
    FilterKeepsAll(IdIsNot(id), trains);
  }

  /** Removing a train just added under a fresh id gives back the list as
      it was before the add. */
  lemma RemoveUndoesAdd(trains: seq<SimulationTrain>, f: TrainForm, id: string)
    requires forall t :: t in trains ==> t.id != id
    ensures WithoutTrain(trains + [TrainFromForm(f, id)], id) == trains
  {
    var added := TrainFromForm(f, id);
    FilterAppend(IdIsNot(id), trains, [added]);
    RemoveUnknownIdKeepsAll(trains, id);
    assert !IdIsNot(id)([added][0]);
    FilterKeepsNone(IdIsNot(id), [added]);
  }

  /** `disabled={!selectedSection || simulationTrains.length === 0 || isRunning}`, negated. */
  predicate RunEnabled(selectedSection: string, trainCount: nat, isRunning: bool) {
    !(selectedSection == "" || trainCount == 0 || isRunning)
  }

  /** Run needs a section, at least one train and no run in progress;
      adding a train never disables it. */
  lemma RunEnabledConditions(section: string, n: nat, running: bool)
    ensures RunEnabled(section, n, running) <==> section != "" && n >= 1 && !running
    ensures RunEnabled(section, n, running) ==> RunEnabled(section, n + 1, running)
  {
  }

  /** The page's state. The values of a run's results are not modelled, only
      whether there are any. */
  class SimulatorPage {
    var selectedSection: string
    var trains: seq<SimulationTrain>
    var isRunning: bool
    var hasResults: bool
    var form: TrainForm

    constructor()
      ensures selectedSection == "" && trains == [] && !isRunning && !hasResults && form == EmptyForm
      ensures !RunButtonEnabled()
    {
      selectedSection := "";
      trains := [];
      isRunning := false;
      hasResults := false;
      form := EmptyForm;
    }

    /** Run is enabled exactly when a section is selected, at least one train
        is configured, and no run is in progress. */
    predicate RunButtonEnabled()
      reads this
    {
      RunEnabled(selectedSection, |trains|, isRunning)
    }

    /** The section select's `onValueChange`. */
    method SelectSection(section: string)
      modifies this
      ensures selectedSection == section
      ensures trains == old(trains) && isRunning == old(isRunning) && hasResults == old(hasResults) && form == old(form)
    {
      selectedSection := section;
    }

    /** The form inputs' `onChange` handlers, each replacing one field. */
    method EditForm(f: TrainForm)
      modifies this
      ensures form == f
      ensures selectedSection == old(selectedSection) && trains == old(trains)
      ensures isRunning == old(isRunning) && hasResults == old(hasResults)
    {
      form := f;
    }

    /** `addTrain`, with `id` standing for `Date.now().toString()`. */
    method AddTrain(id: string)
      modifies this
      ensures !CanAdd(old(form)) ==> trains == old(trains) && form == old(form)
      ensures CanAdd(old(form)) ==> trains == old(trains) + [TrainFromForm(old(form), id)] && form == EmptyForm
      ensures selectedSection == old(selectedSection) && isRunning == old(isRunning) && hasResults == old(hasResults)
    {
      if !CanAdd(form) {
        return;
      }
      var train := TrainFromForm(form, id);
      trains := trains + [train];
      form := EmptyForm;
    }

    /** `removeTrain`. */
    method RemoveTrain(id: string)
      modifies this
      ensures trains == WithoutTrain(old(trains), id)
      ensures selectedSection == old(selectedSection) && isRunning == old(isRunning)
      ensures hasResults == old(hasResults) && form == old(form)
    {
      trains := WithoutTrain(trains, id);
    }

    /** `resetSimulation`: no trains, no results, no section; a reset page
        cannot start a run. */
    method ResetSimulation()
      modifies this
      ensures trains == [] && !hasResults && selectedSection == ""
      ensures isRunning == old(isRunning) && form == old(form)
      ensures !RunButtonEnabled()
    {
      trains := [];
      hasResults := false;
      selectedSection := "";
    }

    /** The start of `runSimulation`: the flag that disables the button. */
    method StartRun()
      requires RunButtonEnabled()
      modifies this
      ensures isRunning && !RunButtonEnabled()
      ensures selectedSection == old(selectedSection) && trains == old(trains)
      ensures hasResults == old(hasResults) && form == old(form)
    {
      isRunning := true;
    }

    /** The end of `runSimulation`: results are set and the flag cleared. */
    method FinishRun()
      modifies this
      ensures !isRunning && hasResults
      ensures selectedSection == old(selectedSection) && trains == old(trains) && form == old(form)
      ensures RunButtonEnabled() <==> selectedSection != "" && |trains| > 0
    {
      isRunning := false;
      hasResults := true;
    }
  }
}
