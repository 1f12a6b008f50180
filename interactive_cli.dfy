/** The input checks of the interactive menu (interactive_cli.py): the menu
    choice and the name of the person to enrol. Each is asked for again until
    an acceptable line is typed; a sequence of typed lines stands for the
    terminal. */
module InteractiveCli {
  import opened Wrappers
  import opened Text
  import opened Names
  import opened AddPerson

  /** An accepted line and its position among the lines typed. */
  datatype Reply<T> = Reply(value: T, line: nat)

  /** The re-prompting loop: the value of the first line that `parse` accepts,
      every earlier line having been rejected; nothing if no line is accepted. */
  function FirstAccepted<T>(inputs: seq<string>, parse: string -> Option<T>): (r: Option<Reply<T>>)
    ensures r.Some? ==> r.value.line < |inputs| && parse(inputs[r.value.line]) == Some(r.value.value)
    ensures r.Some? ==> forall j :: 0 <= j < r.value.line ==> parse(inputs[j]).None?
    ensures r.None? <==> forall j :: 0 <= j < |inputs| ==> parse(inputs[j]).None?
  {
    if inputs == [] then None
    else if parse(inputs[0]).Some? then Some(Reply(parse(inputs[0]).value, 0))
    else
      match FirstAccepted(inputs[1..], parse)
      case None => None
      case Some(reply) => Some(Reply(reply.value, reply.line + 1))
  }

  const MenuChoices: seq<string> := ["1", "2", "3", "4"]

  /** One attempt of `get_user_choice`: the stripped line is accepted iff it
      is one of the four menu numbers, and its value is the number it spells. */
  function ParseChoice(raw: string): (r: Option<int>)
    ensures r.Some? <==> Strip(raw) in MenuChoices
    ensures r.Some? ==> 1 <= r.value <= 4 && Strip(raw) == DecimalString(r.value)
  {
    var choice := Strip(raw);
    if choice in MenuChoices then
      assert choice == "1" || choice == "2" || choice == "3" || choice == "4";
      assert DecimalString(1) == "1" && DecimalString(2) == "2";
      assert DecimalString(3) == "3" && DecimalString(4) == "4";
      Some(DigitsValue(choice))
    else None
  }

  /** `get_user_choice`: the first valid line decides the choice. */
  function GetUserChoice(inputs: seq<string>): (r: Option<Reply<int>>)
    ensures r.Some? ==> 1 <= r.value.value <= 4
  {
    FirstAccepted(inputs, ParseChoice)
  }

  /** Surrounding blanks are ignored. */
  lemma ChoiceIgnoresBlanks()
    ensures ParseChoice(" 3\n") == Some(3)
  {
    assert IsSpace(' ') && IsSpace('\n') && !IsSpace('3');
    assert StripLeft(" 3\n") == StripLeft("3\n") == "3\n";
    assert StripRight("3\n") == StripRight("3") == "3";
    assert Strip(" 3\n") == "3";
    assert DigitsValue("3") == 3;
  }

  /** A typed "0", "5" or "1." is refused. */
  lemma ChoiceRefusesOthers()
    ensures ParseChoice("0").None? && ParseChoice("5").None? && ParseChoice("1.").None?
  {
    assert !IsSpace('0') && !IsSpace('5') && !IsSpace('1') && !IsSpace('.');
    assert Strip("0") == "0" && Strip("5") == "5";
    assert StripLeft("1.") == "1." && StripRight("1.") == "1.";
    assert Strip("1.") == "1.";
  }

  /** A wrong line and then a right one: the second line is taken. */
  lemma RepromptExample()
    ensures GetUserChoice(["9", "2"]) == Some(Reply(2, 1))
  {
    assert !IsSpace('9') && !IsSpace('2');
    assert Strip("9") == "9" && ParseChoice("9").None?;
    assert Strip("2") == "2" && DigitsValue("2") == 2;
    assert ParseChoice("2") == Some(2);
    assert ["9", "2"][0] == "9" && ["9", "2"][1..] == ["2"];
    assert FirstAccepted(["2"], ParseChoice) == Some(Reply(2, 0));
  }

  /** What `option_add_new_person` answers to one typed name. */
  datatype NameReply = Valid(name: string) | EmptyName | InvalidName

  /** One attempt: a blank line is refused as empty, a line with nothing left
      after cleaning as invalid, and otherwise the cleaned line is the name,
      made of kept characters only and without spaces at either end. */
  function CheckPersonName(raw: string): (r: NameReply)
    ensures r == EmptyName <==> Strip(raw) == []
    ensures r.Valid? <==> CleanName(raw) != []
    ensures r.Valid? ==> r.name == CleanName(raw) && r.name != []
    ensures r.Valid? ==> forall i :: 0 <= i < |r.name| ==> KeepNameChar(r.name[i])
    ensures r.Valid? ==> r.name[0] != ' ' && r.name[|r.name| - 1] != ' '
  {
    var personName := Strip(raw);
    CleanNameOfStripped(raw);
    if personName == [] then
      assert CleanName(personName) == [];
      EmptyName
    else
      var cleanName := CleanName(personName);
      if cleanName != [] then Valid(cleanName) else InvalidName
  }

  function AcceptedName(raw: string): Option<string> {
    if CheckPersonName(raw).Valid? then Some(CheckPersonName(raw).name) else None
  }

  /** The name loop of `option_add_new_person`. */
  function GetPersonName(inputs: seq<string>): (r: Option<Reply<string>>)
    ensures r.Some? ==> r.value.line < |inputs| && r.value.value == CleanName(inputs[r.value.line]) != []
    ensures r.None? <==> forall j :: 0 <= j < |inputs| ==> CleanName(inputs[j]) == []
  {
    FirstAccepted(inputs, AcceptedName)
  }

  /** The menu accepts exactly the names the corrected check of the enrolment
      script accepts, and turns them into the same cleaned name. */
  lemma MenuAgreesWithEnrolment(raw: string)
    ensures CheckPersonName(raw).Valid? <==> ValidateName(raw).Accepted?
    ensures CheckPersonName(raw).Valid? ==> CheckPersonName(raw).name == ValidateName(raw).name
  {
  }

  /** The line the enrolment script accepts as written is refused here. */
  lemma MenuRefusesSymbols()
    ensures CheckPersonName("!!!") == InvalidName
    ensures ValidateNameAsWritten("!!!").Accepted?
  {
    ValidateNameAsWrittenAcceptsSymbols();
    assert !IsSpace('!');
    assert Strip("!!!") != [];
  }
}
