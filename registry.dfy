/** The function registry: one record per formula function name, with its
    parameter names, description, example and implementation status, and the
    lookups the editor and the evaluator use. */
module Registry {
  import opened JsString
  import opened StringOrder
  import opened Lists

  /** The three statuses a record may carry; the evaluator refuses to run a
      `NotImplemented` function. */
  datatype Status = Implemented | Partial | NotImplemented

  datatype Descriptor = Descriptor(
    params: seq<string>,
    description: string,
    example: string,
    status: Status)

  /** The registry table, keyed by upper-case function name. */
  const FunctionData: map<string, Descriptor> := map[
    "!CONTAINS" := Descriptor(
      ["DoesThisValueNotExist", "AnywhereInsideThisValue"],
      "Returns true if a search text is NOT found within some other text.",
      "=!CONTAINS(SearchText; [[Field]])",
      Implemented),
    "!EQUALS" := Descriptor(
      ["DoesThisValue", "NotEqualThisValue", "OrThisValue", "..."],
      "Returns true if the first value does NOT equal any of the other values.",
      "=!EQUALS([[Status]]; Approved; Complete)",
      Implemented),
    "ANYTRUE" := Descriptor(
      ["IsThisFunctionTrue", "IsThisFunctionTrue", "..."],
      "Returns 1 (true) if ANY parameter returns true. Numbers > 0 are true.",
      "=ANYTRUE(=EQUALS([[Status]]; Complete); =GTNUM([[Score]]; 80))",
      Implemented),
    "APPEND" := Descriptor(
      ["Separator", "Item1", "Item2", "..."],
      "Combines values together with a specified separator character.",
      "[[FirstName]]=APPEND( ; [[LastName]])",
      Implemented),
    "BDATE" := Descriptor(
      ["IsThisDate", "GreaterThanThisDate", "AndLessThanThisDate"],
      "Returns 1 if the date is between two other dates (exclusive), 0 if false.",
      "=BDATE([[DueDate]]; 2024-01-01; 2024-12-31)",
      Implemented),
    "BEDATE" := Descriptor(
      ["IsThisDate", "GreaterThanOrEqualToThisDate", "AndLessThanOrEqualToThisDate"],
      "Returns 1 if the date is between or equal to two other dates (inclusive), 0 if false.",
      "=BEDATE([[DueDate]]; 2024-01-01; 2024-12-31)",
      Implemented),
    "BENUM" := Descriptor(
      ["IsThisNum", "GreaterThanOrEqualToThisNum", "AndLessThanOrEqualToThisNum"],
      "Returns 1 if number is between or equal to two numbers (inclusive).",
      "=BENUM([[Score]]; 0; 100)",
      Implemented),
    "BNUM" := Descriptor(
      ["IsThisNum", "GreaterThanThisNum", "AndLessThanThisNum"],
      "Returns 1 if number is between two numbers (exclusive).",
      "=BNUM([[Score]]; 0; 100)",
      Implemented),
    "CALC" := Descriptor(
      ["MathematicalExpression"],
      "Performs mathematical operations on numbers or numeric fields.",
      "=CALC([[Price]] * [[Quantity]])",
      Implemented),
    "CEILING" := Descriptor(
      ["AnyNumber"],
      "Returns the smallest integer >= the specified number.",
      "=CEILING(4.2)",
      Implemented),
    "CONTAINS" := Descriptor(
      ["DoesThisValueExist", "AnywhereInsideThisValue"],
      "Returns true if search text is found within other text.",
      "=CONTAINS(urgent; [[Description]])",
      Implemented),
    "DATEADD" := Descriptor(
      ["UnitToIncrement", "IncrementBy", "DateToIncrement", "OptionalMinDate"],
      "Adds/subtracts time from a date. Units: minute, hour, workhour, day, weekday, week, month, year.",
      "=DATEADD(day; 30; [[StartDate]])",
      Implemented),
    "DATEDIFF" := Descriptor(
      ["ReturnUnit", "SubtractThisDate", "FromThisDate"],
      "Returns difference between two dates in specified unit.",
      "=DATEDIFF(day; [[StartDate]]; [[EndDate]])",
      Implemented),
    "DATELIST" := Descriptor(
      ["StartDate", "EndDate"],
      "Generates semicolon-separated list of consecutive dates (inclusive).",
      "=DATELIST(2024-01-01; 2024-01-31)",
      Partial),
    "DATEPART" := Descriptor(
      ["DatePart", "DateValue"],
      "Extracts numeric part from date: year, weekday, yearday, monthweek, yearweek, month, day, hour, minute, second.",
      "=DATEPART(weekday; [[CreatedDate]])",
      Implemented),
    "DATEPATTERN" := Descriptor(
      ["DateRecurrencePattern", "EndDateToGenerate", "RecurrenceAnchorDate", "StartFromStartDate"],
      "Generates future dates based on recurrence pattern.",
      "=DATEPATTERN(f1w d{12345}; 2024-12-31)",
      NotImplemented),
    "DATEROUND" := Descriptor(
      ["UnitToRoundTo", "IntervalNum", "DateToRound"],
      "Rounds date/time to nearest interval. Units: minute, hour, day.",
      "=DATEROUND(hour; 1; [[Timestamp]])",
      Partial),
    "DATESERIAL" := Descriptor(
      ["Year", "Month", "Day"],
      "Creates a date from year, month, day components.",
      "=DATESERIAL(2024; 12; 25)",
      Implemented),
    "DATETIMEMERGE" := Descriptor(
      ["DateValue", "TimeValue"],
      "Merges date and time into single date/time value.",
      "=DATETIMEMERGE([[DateField]]; [[TimeField]])",
      Partial),
    "EMAILSPLIT" := Descriptor(
      ["ReturnIndex", "EmailAddressText"],
      "Splits emails into semicolon list. Index 0 returns all.",
      "=EMAILSPLIT(0; email1@test.com, email2@test.com)",
      Partial),
    "ENCLOSE" := Descriptor(
      ["ValueYouWantToHide"],
      "Hides text from rest of function. Useful for tokens with semicolons/HTML.",
      "=ENCLOSE([[FieldWithSemicolons]])",
      Implemented),
    "EQUALS" := Descriptor(
      ["DoesThisValue", "EqualThisValue", "AndThisValue", "..."],
      "Returns true if first value equals ALL other values.",
      "=EQUALS([[Status]]; Approved)",
      Implemented),
    "FIRSTVALUE" := Descriptor(
      ["Item1", "Item2", "Item3", "..."],
      "Returns first non-empty value from list.",
      "=FIRSTVALUE([[PreferredName]]; [[FirstName]]; Unknown)",
      Implemented),
    "FISCALMONTH" := Descriptor(
      ["FiscalYearStartMonthNumber", "DateToEvaluate"],
      "Returns fiscal month number based on fiscal year start.",
      "=FISCALMONTH(7; [[Date]])",
      Partial),
    "FISCALYEAR" := Descriptor(
      ["FiscalYearStartMonthNumber", "DateToEvaluate"],
      "Returns fiscal year based on fiscal year start month.",
      "=FISCALYEAR(7; [[Date]])",
      Partial),
    "FLOOR" := Descriptor(
      ["AnyNumber"],
      "Returns largest integer <= the specified number.",
      "=FLOOR(4.8)",
      Implemented),
    "FORMAT" := Descriptor(
      ["FormatString", "NumberOrDate"],
      "Formats number/date according to format string.",
      "=FORMAT(0.00; [[Price]])",
      Partial),
    "GTDATE" := Descriptor(
      ["IsThisDate", "GreaterThanThisDate"],
      "Returns 1 if first date > second date, 0 if false.",
      "=GTDATE([[DueDate]]; [[Today]])",
      Implemented),
    "GTEDATE" := Descriptor(
      ["Date1", "Date2"],
      "Returns 1 if Date1 >= Date2, 0 if false.",
      "=GTEDATE([[EndDate]]; [[StartDate]])",
      Implemented),
    "GTENUM" := Descriptor(
      ["IsThisNumber", "GreaterOrEqualToThisNumber"],
      "Returns 1 if first number >= second, 0 if false.",
      "=GTENUM([[Score]]; 70)",
      Implemented),
    "GTNUM" := Descriptor(
      ["IsThisNumber", "GreaterThanThisNumber"],
      "Returns 1 if first number > second, 0 if false.",
      "=GTNUM([[Total]]; 1000)",
      Implemented),
    "HASVALUE" := Descriptor(
      ["DoesAnyValueExistHere"],
      "Returns true if any value exists (not empty).",
      "=HASVALUE([[Comments]])",
      Implemented),
    "IF" := Descriptor(
      ["ConditionCheck", "IfTrueReturnThis", "AnotherCondition OR IfFalseReturnThis", "IfTrueReturnThis", "OptionalIfFalse"],
      "Checks conditions, returns corresponding values. First true wins.",
      "=IF(=GTNUM([[Score]]; 70); Pass; Fail)",
      Implemented),
    "INSTANCECOUNT" := Descriptor(
      ["TableID", "TableQuery"],
      "Returns count of instances matching query.",
      "=INSTANCECOUNT(TableID; tf_id_xxx[eq]Value)",
      NotImplemented),
    "INSTANCETASKCOUNT" := Descriptor(
      ["ProcessInstanceID", "TemplateTaskID"],
      "Returns times a task was assigned in a process instance.",
      "=INSTANCETASKCOUNT([[ProcessInstanceID]]; TaskID)",
      NotImplemented),
    "INSTANCEUPDATE" := Descriptor(
      ["FieldIDToUpdate", "TableIDToSearch", "SearchQuery", "NewFieldValue"],
      "Updates field in processes matching query.",
      "=INSTANCEUPDATE(FieldID; TableID; Query; NewValue)",
      NotImplemented),
    "ISCONTEXT" := Descriptor(
      ["ContextIDToTest", "AnotherOptionalID", "..."],
      "Tests if formula runs in specified context.",
      "=IF(=ISCONTEXT(FormID); Atlanta; Orlando)",
      NotImplemented),
    "ISEMPTY" := Descriptor(
      ["IsTheValueEmpty"],
      "Returns true if field is empty.",
      "=ISEMPTY([[Notes]])",
      Implemented),
    "ISPUBLICUSER" := Descriptor(
      [],
      "Returns true if executed by non-logged-in user.",
      "=IF(=ISPUBLICUSER(); PublicContent; PrivateContent)",
      NotImplemented),
    "ISTRUE" := Descriptor(
      ["IsThisTrue", "OptionalIsThisTrue", "..."],
      "Returns true if ALL values are true. Numbers > 0 are true.",
      "=ISTRUE([[IsActive]]; [[IsVerified]])",
      Implemented),
    "JSONENCODE" := Descriptor(
      ["TextParameter"],
      "Returns text JSON encoded for use as JSON property value.",
      "=JSONENCODE([[MultilineText]])",
      Implemented),
    "JSONEXTRACT" := Descriptor(
      ["AnyTextContainingJSON"],
      "Extracts first valid JSON object/array from text.",
      "=JSONEXTRACT([[APIResponse]])",
      Implemented),
    "JSONFIFO" := Descriptor(
      ["ExistingJsonArray", "NewJsonObjectToAdd", "MaximumLength"],
      "Adds JSON object to array. If MaxLength exceeded, removes last.",
      "=JSONFIFO([[LogArray]]; {\"action\":\"login\"}; 100)",
      Implemented),
    "JSONINDEX" := Descriptor(
      ["IndexToRetrieve", "ExistingJsonArray"],
      "Returns element at index. Positive from start, negative from end.",
      "=JSONINDEX(1; [[JsonArray]])",
      Implemented),
    "JSONQUERY" := Descriptor(
      ["JSONPropertyName", "JSONContainingTheProperty"],
      "Queries JSON and extracts property values. Use dot notation for nested.",
      "=JSONQUERY(data.name; [[JsonField]])",
      Implemented),
    "JSONREMOVE" := Descriptor(
      ["IndexToRemove", "ExistingJsonArray"],
      "Removes element at index and returns modified array.",
      "=JSONREMOVE(1; [[JsonArray]])",
      Implemented),
    "JSONUPDATE" := Descriptor(
      ["ExistingJsonObject", "PropertyName", "PropertyValue"],
      "Adds or updates property in JSON object.",
      "=JSONUPDATE([[JsonObject]]; status; updated)",
      Implemented),
    "LEFT" := Descriptor(
      ["Count", "Value"],
      "Returns specified characters from start of string.",
      "=LEFT(3; [[Code]])",
      Implemented),
    "LEFTOF" := Descriptor(
      ["ReturnLeftOf", "SearchInString"],
      "Returns text left of first occurrence of characters.",
      "=LEFTOF(@; [[Email]])",
      Implemented),
    "LEFTOFLAST" := Descriptor(
      ["ReturnLeftOf", "SearchInString"],
      "Returns text left of LAST occurrence.",
      "=LEFTOFLAST(/; [[FilePath]])",
      Implemented),
    "LENGTH" := Descriptor(
      ["CharacterString"],
      "Returns character count in string.",
      "=LENGTH([[Description]])",
      Implemented),
    "LINESPLIT" := Descriptor(
      ["IndexOfSplitListToReturn", "TextToSplit"],
      "Splits multiline text into list. Index 0 returns all.",
      "=LINESPLIT(1; [[Address]])",
      Implemented),
    "LISTASLINES" := Descriptor(
      ["SemicolonSeparatedList"],
      "Converts list to text with each entry on separate line.",
      "=LISTASLINES([[Items]])",
      Implemented),
    "LISTCOUNT" := Descriptor(
      ["Item1", "Item2", "..."],
      "Returns total items in list.",
      "=LISTCOUNT([[Tags]])",
      Implemented),
    "LISTDIFF" := Descriptor(
      ["SemicolonSeparatedList1", "SemicolonSeparatedList2"],
      "Returns first list minus second list entries.",
      "=LISTDIFF([[AllItems]]; [[CompletedItems]])",
      Implemented),
    "LISTINDEX" := Descriptor(
      ["ReturnIndex", "SemicolonSeparatedTextList"],
      "Returns entry at specified index.",
      "=LISTINDEX(2; [[Options]])",
      Implemented),
    "LISTINTERSECT" := Descriptor(
      ["SemicolonSeparatedList1", "SemicolonSeparatedList2"],
      "Returns entries appearing in both lists.",
      "=LISTINTERSECT([[Skills]]; [[Required]])",
      Implemented),
    "LISTITEMAPPEND" := Descriptor(
      ["AppendText", "SemicolonSeparatedList"],
      "Appends text to each list entry.",
      "=LISTITEMAPPEND(.pdf; [[Filenames]])",
      Partial),
    "LISTITEMCONTAINS" := Descriptor(
      ["SearchForText", "SemicolonSeparatedList"],
      "Returns entries containing search text.",
      "=LISTITEMCONTAINS(error; [[LogEntries]])",
      Partial),
    "LISTITEMENDSWITH" := Descriptor(
      ["SearchForText", "SemicolonSeparatedList"],
      "Returns entries ending with text.",
      "=LISTITEMENDSWITH(.pdf; [[Files]])",
      Partial),
    "LISTITEMLEFT" := Descriptor(
      ["NumberOfCharsToReturn", "SemicolonSeparatedList"],
      "Returns leftmost chars from each entry.",
      "=LISTITEMLEFT(4; [[Codes]])",
      Partial),
    "LISTITEMLEFTOF" := Descriptor(
      ["SearchForText", "SemicolonSeparatedList"],
      "Returns text left of search text for each entry.",
      "=LISTITEMLEFTOF(@; [[Emails]])",
      Partial),
    "LISTITEMPREPEND" := Descriptor(
      ["PrependText", "SemicolonSeparatedList"],
      "Prepends text to each list entry.",
      "=LISTITEMPREPEND(ID-; [[Numbers]])",
      Partial),
    "LISTITEMREGEX" := Descriptor(
      ["RegEx", "SemicolonSeparatedList"],
      "Returns entries matching regex.",
      "=LISTITEMREGEX(.*Entry\\d; [[Items]])",
      Partial),
    "LISTITEMRIGHT" := Descriptor(
      ["NumberOfCharsToReturn", "SemicolonSeparatedList"],
      "Returns rightmost chars from each entry.",
      "=LISTITEMRIGHT(4; [[Files]])",
      Partial),
    "LISTITEMRIGHTOF" := Descriptor(
      ["SearchForText", "SemicolonSeparatedList"],
      "Returns text right of search text for each entry.",
      "=LISTITEMRIGHTOF(@; [[Emails]])",
      Partial),
    "LISTITEMSTARTSWITH" := Descriptor(
      ["SearchForText", "SemicolonSeparatedList"],
      "Returns entries starting with text.",
      "=LISTITEMSTARTSWITH(A; [[Codes]])",
      Partial),
    "LISTJOIN" := Descriptor(
      ["NewListItemSeparator", "SemicolonSeparatedList"],
      "Joins entries with separator. Keywords: ppnewline, pptab, ppcrlf, ppsp.",
      "=LISTJOIN(ppnewline; [[Items]])",
      Implemented),
    "LISTMERGE" := Descriptor(
      ["SemicolonSeparatedList1", "SemicolonSeparatedList2"],
      "Returns all unique entries from both lists.",
      "=LISTMERGE([[List1]]; [[List2]])",
      Implemented),
    "LISTUNIQUE" := Descriptor(
      ["SemicolonSeparatedList"],
      "Returns unique entries only (removes duplicates).",
      "=LISTUNIQUE([[AllTags]])",
      Implemented),
    "LOWERCASE" := Descriptor(
      ["String"],
      "Converts string to lowercase.",
      "=LOWERCASE([[Name]])",
      Implemented),
    "LTDATE" := Descriptor(
      ["IsThisDate", "LessThanThisDate"],
      "Returns 1 if first date < second date, 0 if false.",
      "=LTDATE([[Created]]; [[Deadline]])",
      Implemented),
    "LTEDATE" := Descriptor(
      ["IsThisDate", "LessThanOrEqualToThisDate"],
      "Returns 1 if first date <= second date, 0 if false.",
      "=LTEDATE([[Start]]; [[End]])",
      Implemented),
    "LTENUM" := Descriptor(
      ["Value1", "Value2"],
      "Returns 1 if first value <= second, 0 if false.",
      "=LTENUM([[Count]]; 10)",
      Implemented),
    "LTNUM" := Descriptor(
      ["IsThisValue", "LessThanThisValue"],
      "Returns 1 if first value < second, 0 if false.",
      "=LTNUM([[Age]]; 18)",
      Implemented),
    "MAX" := Descriptor(
      ["Parameter1", "Parameter2", "..."],
      "Returns maximum number from list.",
      "=MAX([[Score1]]; [[Score2]]; [[Score3]])",
      Implemented),
    "MIN" := Descriptor(
      ["Parameter1", "Parameter2", "..."],
      "Returns minimum number from list.",
      "=MIN([[Price1]]; [[Price2]])",
      Implemented),
    "MONTH" := Descriptor(
      ["DateValue"],
      "Extracts month (1-12) from date.",
      "=MONTH([[CreatedDate]])",
      Implemented),
    "MONTHDAY" := Descriptor(
      ["DateValue"],
      "Extracts day of month (1-31) from date.",
      "=MONTHDAY([[Birthday]])",
      Implemented),
    "MONTHLASTDAY" := Descriptor(
      ["DateValue", "OptionalAddOrSubtractDay"],
      "Returns last day of month. Optional param adds/subtracts days.",
      "=MONTHLASTDAY([[InvoiceDate]]; -1)",
      Implemented),
    "NORMALIZETEXT" := Descriptor(
      ["TextValue"],
      "Removes spaces, formatting, HTML, carriage returns, line feeds.",
      "=NORMALIZETEXT([[Input]])",
      Partial),
    "NOT" := Descriptor(
      ["BooleanParameter"],
      "Returns opposite of Boolean (True->False). Zero is false.",
      "=NOT(=ISEMPTY([[Field]]))",
      Implemented),
    "NUM" := Descriptor(
      ["Parameter"],
      "Extracts number by stripping non-numeric chars.",
      "=NUM([[PriceText]])",
      Implemented),
    "NUMSPLIT" := Descriptor(
      ["Parameter"],
      "Extracts all numbers as semicolon list.",
      "=NUMSPLIT(123 Sample St, NY 10016)",
      Partial),
    "PARSE" := Descriptor(
      ["GetRightOfThisText", "GetLeftOfThisText", "SearchWithinThisText"],
      "Returns text between two markers. Special: crlf, tab.",
      "=PARSE(Name:; Age:; [[Data]])",
      Implemented),
    "PARTITION" := Descriptor(
      ["NumberToBePartitioned", "Divisor"],
      "Returns list of integers summing to original number.",
      "=PARTITION(100; 31)",
      Implemented),
    "RANDOMNUM" := Descriptor(
      ["MinimumNumber", "MaximumNumber"],
      "Returns random number between bounds.",
      "=RANDOMNUM(1; 100)",
      Implemented),
    "REGEXFIND" := Descriptor(
      ["RegEx", "StringToSearch"],
      "Returns text matching regex pattern.",
      "=REGEXFIND(\\d+; This has number: 263)",
      Implemented),
    "REGEXWORDSONLY" := Descriptor(
      ["TextToConvertToRegex"],
      "Converts text to regex matching words only, ignoring punctuation.",
      "=REGEXWORDSONLY([[SearchText]])",
      Partial),
    "REMOVECHARS" := Descriptor(
      ["Value", "CharsToRemove"],
      "Removes specified characters from text.",
      "=REMOVECHARS([[Phone]]; -() )",
      Implemented),
    "REMOVEDIACRITICS" := Descriptor(
      ["Value"],
      "Removes accents, replacing with equivalent chars.",
      "=REMOVEDIACRITICS(cafe)",
      Partial),
    "REMOVESPACES" := Descriptor(
      ["Value"],
      "Removes all spaces from text.",
      "=REMOVESPACES([[Code]])",
      Implemented),
    "REMOVESYMBOLS" := Descriptor(
      ["Value"],
      "Removes symbols, keeping alphanumeric and spaces.",
      "=REMOVESYMBOLS([[Input]])",
      Partial),
    "REPLACE" := Descriptor(
      ["SearchForText", "NewText", "SearchWithinText"],
      "Finds and replaces text.",
      "=REPLACE(old; new; [[Text]])",
      Implemented),
    "RIGHT" := Descriptor(
      ["Count", "Value"],
      "Returns specified chars from end of string.",
      "=RIGHT(4; [[Filename]])",
      Implemented),
    "RIGHTOF" := Descriptor(
      ["ReturnRightOf", "SearchInString"],
      "Returns text right of first occurrence.",
      "=RIGHTOF(@; [[Email]])",
      Implemented),
    "RIGHTOFLAST" := Descriptor(
      ["ReturnRightOf", "SearchInString"],
      "Returns text right of LAST occurrence.",
      "=RIGHTOFLAST(/; [[FilePath]])",
      Implemented),
    "ROUND" := Descriptor(
      ["NumOfDecimals", "AnyNumber"],
      "Rounds to specified decimal places.",
      "=ROUND(2; [[Total]])",
      Implemented),
    "SPLIT" := Descriptor(
      ["CharacterToSplitOn", "IndexOfSplitToReturn", "TextToSplit"],
      "Splits on character, returns section. Index 0 returns all.",
      "=SPLIT(-; 2; [[Code]])",
      Implemented),
    "SUM" := Descriptor(
      ["Parameter1", "Parameter2", "..."],
      "Sums list of numbers.",
      "=SUM([[Item1]]; [[Item2]]; [[Item3]])",
      Implemented),
    "TABLEAVG" := Descriptor(
      ["FieldID", "TableID", "TableQuery"],
      "Returns average of column values in table.",
      "=TABLEAVG(FieldID; TableID; Query)",
      NotImplemented),
    "TABLEJSON" := Descriptor(
      ["NumberOfColumns", "ProcessTableID", "OptionalTableQuery"],
      "Returns table data as JSON array of objects.",
      "=TABLEJSON(5; TableID; Query)",
      NotImplemented),
    "TABLELOOKUP" := Descriptor(
      ["FieldTokenToRetrieve", "TableID", "TableQuery"],
      "Returns value from Process Table matching query.",
      "=TABLELOOKUP([[FieldToken]]; TableID; Query)",
      NotImplemented),
    "TABLESUM" := Descriptor(
      ["FieldID", "TableID", "TableQuery"],
      "Sums column values in table.",
      "=TABLESUM(FieldID; TableID; Query)",
      NotImplemented),
    "TASKLOOKUP" := Descriptor(
      ["FieldTokenToRetrieve", "TemplateTaskID", "TaskQuery"],
      "Queries task and returns requested attribute.",
      "=TASKLOOKUP([[AssignedTo]]; TaskID; Query)",
      NotImplemented),
    "TASKREPORT" := Descriptor(
      ["TextBlockID", "ProcessInstanceID", "IncludeSubprocessTask", "FilterQuery"],
      "Produces task report using Text Block format.",
      "=TASKREPORT([[TextBlockID]]; [[ProcessInstanceID]]; true; it_name[ct]task)",
      NotImplemented),
    "TITLECASE" := Descriptor(
      ["TextParameter"],
      "Capitalizes first letter of each word.",
      "=TITLECASE([[name]])",
      Implemented),
    "TRIM" := Descriptor(
      ["TextToTrim"],
      "Removes leading/trailing spaces and double spaces.",
      "=TRIM([[Input]])",
      Implemented),
    "UPPERCASE" := Descriptor(
      ["String"],
      "Capitalizes each letter.",
      "=UPPERCASE([[Code]])",
      Implemented),
    "URLENCODE" := Descriptor(
      ["CharacterToEncode"],
      "Encodes characters for URL use.",
      "=URLENCODE([[SearchTerm]])",
      Partial),
    "WORDSPLIT" := Descriptor(
      ["ReturnWordIndex", "PlainText"],
      "Splits text into word list. Index 0 returns all.",
      "=WORDSPLIT(1; [[FullName]])",
      Partial),
    "WORKDAY" := Descriptor(
      ["WorkScheduleID", "WorkdaysToSkip", "DateToStartEvaluatingFrom"],
      "Advances date to next working day based on work schedule.",
      "=WORKDAY([[WorkScheduleID]]; 5; [[StartDate]])",
      NotImplemented),
    "YEAR" := Descriptor(
      ["DateValue"],
      "Extracts year from date.",
      "=YEAR([[CreatedDate]])",
      Implemented)
  ]

  /** `FUNCTIONS`: the set of registered names. */
  function Functions(): (r: set<string>)
    ensures forall n :: n in r <==> n in FunctionData
  {
    FunctionData.Keys
  }

  /** `FUNCTION_LIST`: every registered name once, in ascending order. */
  function FunctionList(): (r: seq<string>)
    ensures StrictlySorted(r) && NoDuplicates(r)
    ensures forall n :: n in r <==> n in FunctionData
    ensures |r| == |FunctionData|
  {
    var r := SortedElements(FunctionData.Keys);
    StrictlySortedDistinct(r);
    r
  }

  /** `getFunctionParams`: the registered parameter names, none for an
      unknown name. */
  function GetFunctionParams(name: string): (r: seq<string>)
    ensures name in FunctionData ==> r == FunctionData[name].params
    ensures name !in FunctionData ==> r == []
  {
    if name in FunctionData then FunctionData[name].params else []
  }

  /** `getFunctionStatus`: an unknown name counts as not implemented. */
  function GetFunctionStatus(name: string): (r: Status)
    ensures name in FunctionData ==> r == FunctionData[name].status
    ensures name !in FunctionData ==> r == NotImplemented
  {
    if name in FunctionData then FunctionData[name].status else NotImplemented
  }

  /** `getFunctionDescription`: empty for an unknown name. */
  function GetFunctionDescription(name: string): (r: string)
    ensures name in FunctionData ==> r == FunctionData[name].description
    ensures name !in FunctionData ==> r == []
  {
    if name in FunctionData then FunctionData[name].description else []
  }

  /** `getFunctionExample`: empty for an unknown name. */
  function GetFunctionExample(name: string): (r: string)
    ensures name in FunctionData ==> r == FunctionData[name].example
    ensures name !in FunctionData ==> r == []
  {
    if name in FunctionData then FunctionData[name].example else []
  }

  /** `getFunctionSyntax`: `=NAME(` then the parameter names separated by
      `"; "`, then `)`. */
  function GetFunctionSyntax(name: string): (r: string)
    ensures StartsWith(r, "=" + name + "(") && EndsWith(r, ")")
    ensures |r| == |name| + 3 + |Join(GetFunctionParams(name), "; ")|
  {
    "=" + name + "(" + Join(GetFunctionParams(name), "; ") + ")"
  }

  /** The text between the parentheses of the syntax line. */
  function SyntaxInner(name: string): (r: string)
    ensures |GetFunctionSyntax(name)| == |name| + 3 + |r|
  {
    var s := GetFunctionSyntax(name);
    s[|name| + 2..|s| - 1]
  }

  /** The syntax line of a name without parameters, registered or not, is
      `=NAME()`. */
  lemma SyntaxWithoutParams(name: string)
    requires GetFunctionParams(name) == []
    ensures GetFunctionSyntax(name) == "=" + name + "()"
  {
  }

  /** The parameter names can be read back from the syntax line by splitting
      at `"; "`, as long as no name contains a semicolon. */
  lemma SyntaxRoundTrip(name: string)
    requires GetFunctionParams(name) != []
    requires forall k | 0 <= k < |GetFunctionParams(name)| :: ';' !in GetFunctionParams(name)[k]
    ensures SplitOn(SyntaxInner(name), "; ") == GetFunctionParams(name)
  {
    var ps := GetFunctionParams(name);
    var inner := Join(ps, "; ");
    var s := "=" + name + "(" + inner + ")";
    assert s[|name| + 2..|s| - 1] == inner;
    SplitOnOfJoin(ps, "; ");
  }
}
