/** The new-category dialog: the form rule, the generated default colour, the
    request it sends and its busy flag. */
module NewCategory {
  import opened Wrappers
  import opened Text
  import opened Schema
  import opened Colours

  /** categoryFormSchema: a non-empty name and a "#rrggbb" colour. */
  predicate FormOk(name: string, color: string) {
    |name| >= 1 && IsHexColour(color)
  }

  /** getRandomColor, given the integer Math.random produced. */
  function GetRandomColor(n: nat): (c: string)
    requires n < ColourRange
    ensures |c| == 7 && IsHexColour(c)
  {
    RandomColour(n)
  }

  /** Any name the user types is accepted with a generated colour. */
  lemma GeneratedColourAccepted(name: string, n: nat)
    requires n < ColourRange && name != []
    ensures FormOk(name, GetRandomColor(n))
  {
  }

  /** A colour without its "#" or with five digits is refused. */
  lemma ShortColourRefused()
    ensures !FormOk("Work", "#fff00")
    ensures !FormOk("Work", "0070F3")
    ensures FormOk("Work", "#0070f3") && FormOk("Work", "#0070F3")
  {
  }

  /** The request body: the form's name and colour plus the user's id, which
      is left out when there is no signed-in user. */
  function Payload(name: string, color: string, userId: Option<int>): (b: Body)
    ensures "name" in b && "color" in b && b["name"] == Str(name) && b["color"] == Str(color)
    ensures "userId" in b <==> userId.Some?
    ensures userId.Some? ==> b["userId"] == Num(userId.value)
    ensures b.Keys <= {"name", "color", "userId"}
  {
    var fields := map["name" := Str(name), "color" := Str(color)];
    if userId.Some? then fields["userId" := Num(userId.value)] else fields
  }

  /** The dialog's state: the form values and the isCreating flag. */
  class Dialog {
    var name: string
    var color: string
    var isCreating: bool

    /** The form starts with an empty name and a generated colour. */
    constructor (n: nat)
      requires n < ColourRange
      ensures name == "" && color == GetRandomColor(n) && !isCreating
    {
      name := "";
      color := GetRandomColor(n);
      isCreating := false;
    }

    /** onSubmit: raises the flag, hands the request to the mutation (or, when
        that throws, sends nothing) and lowers the flag again in `finally`. */
    method OnSubmit(userId: Option<int>, throws: bool) returns (sent: Option<Body>)
      modifies this
      ensures !isCreating
      ensures sent.Some? <==> !throws
      ensures sent.Some? ==> sent.value == Payload(old(name), old(color), userId)
      ensures name == old(name) && color == old(color)
    {
      isCreating := true;
      if throws {
        sent := None;
      } else {
        sent := Some(Payload(name, color, userId));
      }
      isCreating := false;
    }

    /** onSuccess: the form is reset to an empty name and a fresh colour. */
    method OnCreated(n: nat)
      requires n < ColourRange
      modifies this
      ensures name == "" && color == GetRandomColor(n) && IsHexColour(color)
      ensures isCreating == old(isCreating)
    {
      name := "";
      color := GetRandomColor(n);
    }
  }
}
