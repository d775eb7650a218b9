/** valid_params?: whether a submitted repeat_on together with a repeat
    type describes a weekly repetition. */
module ParamsCheck {
  import opened EventTypes

  /** A request parameter as the controller sees it: absent (nil), a
      string, or a list of parameters (an array or the values of a hash). */
  datatype ParamValue = Nil | Text(chars: string) | List(items: seq<ParamValue>)

  /** The ASCII characters of the POSIX [[:space:]] class. */
  predicate IsSpace(c: char)
  {
    c == ' ' || c == '\t' || c == '\n' || c == '\U{B}' || c == '\U{C}' || c == '\r'
  }

  /** String#blank?: the string holds nothing but spaces. */
  function AllSpace(s: string): (r: bool)
    ensures r <==> forall i :: 0 <= i < |s| ==> IsSpace(s[i])
  {
    if s == [] then true
    else
      assert forall i :: 1 <= i < |s| ==> s[i] == s[1..][i - 1];
      IsSpace(s[0]) && AllSpace(s[1..])
  }

  /** Object#present?: nil is blank, a string is blank when it holds only
      spaces, a list when it is empty. */
  function Present(v: ParamValue): (r: bool)
    ensures v.Nil? ==> !r
    ensures v.Text? ==> (r <==> exists i :: 0 <= i < |v.chars| && !IsSpace(v.chars[i]))
    ensures v.List? ==> (r <==> v.items != [])
  {
    match v
    case Nil => false
    case Text(s) => !AllSpace(s)
    case List(xs) => xs != []
  }

  /** valid_params? repeat_on, repeat_type. */
  function ValidParams(repeatOn: ParamValue, repeatType: Option<RepeatType>): (r: bool)
    ensures r <==> repeatType == Some(Weekly) &&
                   ((repeatOn.Text? && exists i :: 0 <= i < |repeatOn.chars| && !IsSpace(repeatOn.chars[i])) ||
                    (repeatOn.List? && repeatOn.items != []))
  {
    Present(repeatOn) && repeatType == Some(Weekly)
  }
}
