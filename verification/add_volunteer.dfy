/** The `add_volunteer` command: a guarded insert of one volunteer into the
    address book. */
module AddVolunteer {
  import opened Common
  import opened Persons

  /** The address book as the command sees it: the persons it holds, in order. */
  datatype Model = Model(persons: seq<Person>)

  /** `Model.hasPerson`: the person is already held. */
  predicate HasPerson(m: Model, p: Person) {
    p in m.persons
  }

  /** `Model.addPerson`: the person is appended. */
  function AddPerson(m: Model, p: Person): Model {
    Model(m.persons + [p])
  }

  /** No person is held twice. */
  ghost predicate NoDuplicates(m: Model) {
    forall i, j :: 0 <= i < j < |m.persons| ==> m.persons[i] != m.persons[j]
  }

  const MessageSuccessPrefix: string := "New volunteer added: "
  const MessageDuplicatePerson: string := "This volunteer already exists in the database"

  /** The feedback shown to the user after a command succeeds. */
  datatype CommandResult = CommandResult(feedbackToUser: string)

  /** The model after a command ran, and what the command returned or threw. */
  datatype Execution = Execution(model: Model, result: Result<CommandResult>)

  datatype AddVolunteerCommand = AddVolunteerCommand(toAdd: Volunteer)

  /** The constructor: a null volunteer is rejected. */
  function NewAddVolunteerCommand(volunteer: Option<Volunteer>): (r: Result<AddVolunteerCommand>)
    ensures r.Err? <==> volunteer.None?
    ensures r.Err? ==> r.error == NullPointer
    ensures r.Ok? ==> r.value.toAdd == volunteer.value
  {
    match volunteer
    case None => Err(NullPointer)
    case Some(v) => Ok(AddVolunteerCommand(v))
  }

  /** `execute`: a volunteer already present is a duplicate and leaves the
      model alone; otherwise it is added and the success message names it.
      `render` is `Volunteer.toString`. */
  function Execute(c: AddVolunteerCommand, m: Model, render: Volunteer -> string): (r: Execution)
    ensures r.result.Err? <==> HasPerson(m, VolunteerPerson(c.toAdd))
    ensures r.result.Err? ==> r.result.error == CommandError(MessageDuplicatePerson) && r.model == m
    ensures r.result.Ok? ==>
      && |r.model.persons| == |m.persons| + 1
      && r.model.persons[..|m.persons|] == m.persons
      && (forall p :: HasPerson(r.model, p) <==> HasPerson(m, p) || p == VolunteerPerson(c.toAdd))
      && r.result.value.feedbackToUser == MessageSuccessPrefix + render(c.toAdd)
  {
    var person := VolunteerPerson(c.toAdd);
    if HasPerson(m, person) then
      Execution(m, Err(CommandError(MessageDuplicatePerson)))
    else
      Execution(AddPerson(m, person), Ok(CommandResult(MessageSuccessPrefix + render(c.toAdd))))
  }

  /** Adding a volunteer keeps every person of the address book distinct. */
  lemma ExecutePreservesNoDuplicates(c: AddVolunteerCommand, m: Model, render: Volunteer -> string)
    requires NoDuplicates(m)
    ensures NoDuplicates(Execute(c, m, render).model)
  {
  }

  /** Running the same command twice: the first run adds the volunteer, the
      second reports a duplicate and changes nothing. */
  lemma ExecuteTwice(c: AddVolunteerCommand, m: Model, render: Volunteer -> string)
    requires !HasPerson(m, VolunteerPerson(c.toAdd))
    ensures Execute(c, m, render).result.Ok?
    ensures
      var m1 := Execute(c, m, render).model;
      Execute(c, m1, render) == Execution(m1, Err(CommandError("This volunteer already exists in the database")))
  {
  }

  /** `equals`: the same command class holding an equal volunteer. A command
      is determined by its volunteer, so this is equality of commands. */
  function Equals(c: AddVolunteerCommand, other: Object<AddVolunteerCommand>): (r: bool)
    ensures r <==> other == Instance(c)
  {
    other.Instance? && c.toAdd == other.value.toAdd
  }

  /** `equals` is an equivalence relation on commands. */
  lemma EqualsIsEquivalence(c: AddVolunteerCommand, d: AddVolunteerCommand, e: AddVolunteerCommand)
    ensures Equals(c, Instance(c))
    ensures Equals(c, Instance(d)) <==> Equals(d, Instance(c))
    ensures Equals(c, Instance(d)) && Equals(d, Instance(e)) ==> Equals(c, Instance(e))
  {
  }
}
