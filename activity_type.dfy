/**
 * The closed set of motion states a location history reports, and the
 * conversions between a state and its label.
 */
module ActivityTypes {

  datatype ActivityType =
    | InVehicle
    | ExitingVehicle
    | OnBicycle
    | OnFoot
    | Running
    | Still
    | Tilting
    | Unknown
    | Walking

  /** The label a state is written as. Every label decodes back to its state. */
  function Name(t: ActivityType): (text: string)
    ensures FromName(text) == t
  {
    match t
    case InVehicle => "IN_VEHICLE"
    case ExitingVehicle => "EXITING_VEHICLE"
    case OnBicycle => "ON_BICYCLE"
    case OnFoot => "ON_FOOT"
    case Running => "RUNNING"
    case Still => "STILL"
    case Tilting => "TILTING"
    case Unknown => "UNKNOWN"
    case Walking => "WALKING"
  }

  /** Decoding a label never fails: anything that is not one of the nine names is `Unknown`. */
  function FromName(text: string): ActivityType {
    if text == "IN_VEHICLE" then InVehicle
    else if text == "EXITING_VEHICLE" then ExitingVehicle
    else if text == "ON_BICYCLE" then OnBicycle
    else if text == "ON_FOOT" then OnFoot
    else if text == "RUNNING" then Running
    else if text == "STILL" then Still
    else if text == "TILTING" then Tilting
    else if text == "UNKNOWN" then Unknown
    else if text == "WALKING" then Walking
    else Unknown
  }

  /** A label decodes to a state other than `Unknown` exactly when it is that state's name. */
  lemma FromNameKnown(text: string)
    ensures FromName(text) != Unknown <==> exists t :: t != Unknown && Name(t) == text
    ensures FromName(text) != Unknown ==> Name(FromName(text)) == text
  {
    if FromName(text) != Unknown {
      assert Name(FromName(text)) == text;
    }
  }

  /** Distinct states have distinct names. */
  lemma NameInjective(t: ActivityType, u: ActivityType)
    ensures Name(t) == Name(u) <==> t == u
  {
    assert FromName(Name(t)) == t && FromName(Name(u)) == u;
  }
}
