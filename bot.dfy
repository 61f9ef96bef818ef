/** The text-message handler of `bot.py`: the message is lower-cased and stripped,
    classified by three prefix tests and then three substring tests, the amount
    and note of a write command are cut out of it, and the command is carried
    out against the ledger. */
module Bot {

  import opened Wrappers
  import opened PyStr
  import opened Amount
  import opened Ledger

  const SalaryPrefix: string := "salary credited"
  const SpendPrefix: string := "spend"
  const SavingsPrefix: string := "credit savings"

  /** `text.lower().strip()` */
  function Normalize(raw: string): string {
    Strip(Lower(raw))
  }

  /** The branch of the `if`/`elif` chain a normalized text takes. */
  datatype Branch =
    | SalaryBranch | SpendBranch | SavingsBranch
    | TodayBranch | MonthBranch | StatementBranch
    | UnknownBranch

  /** No command prefix: the text goes on to the substring tests. */
  predicate NoCommandPrefix(text: string) {
    !(SalaryPrefix <= text) && !(SpendPrefix <= text) && !(SavingsPrefix <= text)
  }

  /** The tests in their order: the first that passes decides. The prefix tier
      is stated here; `SubstringOrder` states the substring tier. */
  function Classify(text: string): (b: Branch)
    ensures b == SalaryBranch <==> SalaryPrefix <= text
    ensures b == SpendBranch <==> !(SalaryPrefix <= text) && SpendPrefix <= text
    ensures b == SavingsBranch <==> !(SalaryPrefix <= text) && !(SpendPrefix <= text) && SavingsPrefix <= text
    ensures b in {TodayBranch, MonthBranch, StatementBranch, UnknownBranch} <==> NoCommandPrefix(text)
  {
    if SalaryPrefix <= text then SalaryBranch
    else if SpendPrefix <= text then SpendBranch
    else if SavingsPrefix <= text then SavingsBranch
    else if Contains(text, "today report") then TodayBranch
    else if Contains(text, "month report") then MonthBranch
    else if Contains(text, "mini statement") || Contains(text, "statement") then StatementBranch
    else UnknownBranch
  }

  /** What a message asks for, or which of the two error replies it draws. */
  datatype Command =
    | CreditSalary(amount: real)
    | Spend(amount: real, note: string)
    | CreditSavings(amount: real)
    | ShowToday
    | ShowMonth
    | ShowStatement
    | Unknown
    | InvalidAmount  // `float()` raised `ValueError`
    | Failed         // any other exception: `parts[0]` of an empty `parts`

  /** `float(text.split(prefix)[1].strip())` */
  function AmountAfter(text: string, prefix: string): Option<real>
    requires |prefix| > 0 && prefix <= text
  {
    ParseAmount(Strip(SplitSecond(text, prefix)))
  }

  /** `text.split('spend')[1].strip().split(None, 1)` */
  function SpendParts(text: string): seq<string>
    requires SpendPrefix <= text
  {
    SplitOnce(Strip(SplitSecond(text, SpendPrefix)))
  }

  /** The classification and amount/note extraction of `handle_message`. */
  function ParseMessage(raw: string): Command
  {
    Interpret(Normalize(raw))
  }

  /** The `try` block of `handle_message` on the normalized text. */
  function Interpret(text: string): (c: Command)
    ensures c.CreditSalary? ==> SalaryPrefix <= text
    ensures c.Spend? || c.Failed? ==> SpendPrefix <= text
    ensures c.CreditSavings? ==> SavingsPrefix <= text
    ensures c == ShowToday <==> Classify(text) == TodayBranch
    ensures c == ShowMonth <==> Classify(text) == MonthBranch
    ensures c == ShowStatement <==> Classify(text) == StatementBranch
    ensures c == Unknown <==> Classify(text) == UnknownBranch
    ensures c == Failed <==> Classify(text) == SpendBranch && SpendParts(text) == []
    ensures c == InvalidAmount <==>
              (Classify(text) == SalaryBranch && AmountAfter(text, SalaryPrefix).None?) ||
              (Classify(text) == SpendBranch && SpendParts(text) != [] && ParseAmount(SpendParts(text)[0]).None?) ||
              (Classify(text) == SavingsBranch && AmountAfter(text, SavingsPrefix).None?)
    ensures c.CreditSalary? <==> Classify(text) == SalaryBranch && AmountAfter(text, SalaryPrefix).Some?
    ensures c.CreditSavings? <==> Classify(text) == SavingsBranch && AmountAfter(text, SavingsPrefix).Some?
    ensures c.Spend? <==> Classify(text) == SpendBranch && SpendParts(text) != [] && ParseAmount(SpendParts(text)[0]).Some?
  {
    match Classify(text)
    case SalaryBranch =>
      (match AmountAfter(text, SalaryPrefix)
       case Some(a) => CreditSalary(a)
       case None => InvalidAmount)
    case SpendBranch =>
      var parts := SpendParts(text);
      if parts == [] then Failed
      else
        (match ParseAmount(parts[0])
         case Some(a) => Spend(a, if |parts| > 1 then parts[1] else "")
         case None => InvalidAmount)
    case SavingsBranch =>
      (match AmountAfter(text, SavingsPrefix)
       case Some(a) => CreditSavings(a)
       case None => InvalidAmount)
    case TodayBranch => ShowToday
    case MonthBranch => ShowMonth
    case StatementBranch => ShowStatement
    case UnknownBranch => Unknown
  }

  /** The commands that write a row. */
  predicate Writes(c: Command) {
    c.CreditSalary? || c.Spend? || c.CreditSavings?
  }

  /** The row a write command records. */
  function RowFor(c: Command, id: int, userId: int, now: Timestamp): (r: Row)
    requires Writes(c)
    ensures r.id == id && r.userId == userId && r.date == now && r.amount == c.amount
    ensures r.kind == Expense <==> c.Spend?
    ensures r.kind == Salary <==> c.CreditSalary?
    ensures r.kind == Savings <==> c.CreditSavings?
    ensures r.note == if c.Spend? then c.note else ""
  {
    match c
    case CreditSalary(a) => Row(id, userId, Salary, a, "", now)
    case Spend(a, note) => Row(id, userId, Expense, a, note, now)
    case CreditSavings(a) => Row(id, userId, Savings, a, "", now)
  }

  // ----- Classification -----

  /** Surrounding whitespace and letter case make no difference to a message. */
  lemma IgnoresCaseAndPadding(raw: string, pre: string, post: string)
    requires AllSpace(pre) && AllSpace(post)
    ensures ParseMessage(pre + raw + post) == ParseMessage(raw)
    ensures ParseMessage(Lower(raw)) == ParseMessage(raw)
  {
    LowerAppend(pre + raw, post);
    LowerAppend(pre, raw);
    LowerOfSpace(pre);
    LowerOfSpace(post);
    StripPadded(pre, Lower(raw), post);
    LowerIdempotent(raw);
  }

  /** The three prefixes exclude each other, so only the prefix-before-substring
      order matters: a text starting with a prefix is never a report request. */
  lemma PrefixesExclusive(text: string)
    ensures !(SalaryPrefix <= text && SpendPrefix <= text)
    ensures !(SalaryPrefix <= text && SavingsPrefix <= text)
    ensures !(SpendPrefix <= text && SavingsPrefix <= text)
    ensures SpendPrefix <= text ==> Classify(text) == SpendBranch
    ensures SavingsPrefix <= text ==> Classify(text) == SavingsBranch
  {
    if SalaryPrefix <= text {
      assert text[1] == 'a';
    }
    if SpendPrefix <= text {
      assert text[0] == 's' && text[1] == 'p';
    }
  }

  /** The `'mini statement' in text` test adds nothing to `'statement' in text`. */
  lemma StatementTestRedundant(text: string)
    ensures Contains(text, "mini statement") ==> Contains(text, "statement")
  {
    if Contains(text, "mini statement") {
      var i := FindFrom(text, "mini statement", 0).value;
      assert text[i + 5..i + 14] == text[i..i + 14][5..];
      ContainsAt(text, "statement", i + 5);
    }
  }

  /** The substring tier of a text without a command prefix: `today report`,
      then `month report`, then `statement`, and unknown when none occurs. */
  lemma SubstringOrder(text: string)
    requires NoCommandPrefix(text)
    ensures Classify(text) == TodayBranch <==> Contains(text, "today report")
    ensures Classify(text) == MonthBranch <==>
              !Contains(text, "today report") && Contains(text, "month report")
    ensures Classify(text) == StatementBranch <==>
              !Contains(text, "today report") && !Contains(text, "month report") && Contains(text, "statement")
    ensures Classify(text) == UnknownBranch <==>
              !Contains(text, "today report") && !Contains(text, "month report") && !Contains(text, "statement")
  {
    StatementTestRedundant(text);
  }

  /** A message without a command prefix asks for the today report, the month
      report or the statement by the first of those phrases it holds, and is an
      unknown command when it holds none. */
  lemma ReportMessages(raw: string)
    ensures var text := Normalize(raw);
      ParseMessage(raw) == ShowToday <==> NoCommandPrefix(text) && Contains(text, "today report")
    ensures var text := Normalize(raw);
      ParseMessage(raw) == ShowMonth <==>
        NoCommandPrefix(text) && !Contains(text, "today report") && Contains(text, "month report")
    ensures var text := Normalize(raw);
      ParseMessage(raw) == ShowStatement <==>
        NoCommandPrefix(text) && !Contains(text, "today report") && !Contains(text, "month report") &&
        Contains(text, "statement")
    ensures var text := Normalize(raw);
      ParseMessage(raw) == Unknown <==>
        NoCommandPrefix(text) && !Contains(text, "today report") && !Contains(text, "month report") &&
        !Contains(text, "statement")
  {
    var text := Normalize(raw);
    if NoCommandPrefix(text) {
      SubstringOrder(text);
    }
  }

  /** The report and statement tests look anywhere in the text. */
  lemma ReportAnywhere(text: string, i: nat)
    requires !(SalaryPrefix <= text) && !(SpendPrefix <= text) && !(SavingsPrefix <= text)
    requires OccursAt(text, "today report", i)
    ensures Classify(text) == TodayBranch
  {
    ContainsAt(text, "today report", i);
  }

  // ----- Amount and note extraction -----

  /** A non-empty run of the characters a decimal literal is made of. */
  predicate AmountToken(tok: string) {
    tok != [] && forall i :: 0 <= i < |tok| ==> IsAmountChar(tok[i])
  }

  /** `p` occurs nowhere in `s`. */
  ghost predicate FreeOf(s: string, p: string) {
    forall i :: !OccursAt(s, p, i)
  }

  /** A text whose first part never holds `p[0]` holds `p` only where `rest` does. */
  lemma FreeOfAppend(pre: string, rest: string, p: string)
    requires |p| > 0 && p[0] !in pre
    requires FreeOf(rest, p)
    ensures FreeOf(pre + rest, p)
  {
    var s := pre + rest;
    assert s[|pre|..] == rest;
    forall i ensures !OccursAt(s, p, i) {
      if 0 <= i < |pre| && i + |p| <= |s| {
        assert s[i..i + |p|][0] == pre[i];
      } else if i >= |pre| {
        OccursShift(s, p, |pre|, i - |pre|);
      }
    }
  }

  /** An amount token holds no whitespace, no upper case and none of the prefixes' first letters. */
  lemma AmountTokenFacts(tok: string)
    requires AmountToken(tok)
    ensures forall i :: 0 <= i < |tok| ==> !IsSpace(tok[i])
    ensures 's' !in tok && 'c' !in tok && ' ' !in tok
    ensures NoUpper(tok)
  {
  }

  /** Lower-casing changes nothing in a text without upper-case letters. */
  lemma NormalizeOfNoUpper(raw: string)
    requires NoUpper(raw)
    ensures Normalize(raw) == Strip(raw)
  {
    LowerOfNoUpper(raw);
  }

  /** A lower-case text with no whitespace at its ends is already normalized. */
  lemma NormalizedText(text: string)
    requires NoUpper(text) && text != []
    requires !IsSpace(text[0]) && !IsSpace(text[|text| - 1])
    ensures Normalize(text) == text
  {
    LowerOfNoUpper(text);
    StripOfTrimmed(text);
  }

  /** `(prefix + " " + tok).split(prefix)[1].strip()` is `tok`, and `float` reads it. */
  lemma AmountAfterToken(prefix: string, tok: string, a: real)
    requires |prefix| > 0 && prefix[0] != ' ' && prefix[0] !in tok
    requires AmountToken(tok) && ParseAmount(tok) == Some(a)
    ensures AmountAfter(prefix + " " + tok, prefix) == Some(a)
  {
    AmountTokenFacts(tok);
    assert prefix + " " + tok == prefix + (" " + tok);
    SplitAfterPrefix(prefix, " " + tok);
    StripLeadingBlank(tok);
  }

  /** `prefix + " " + tok` is left as it is by `lower().strip()`. */
  lemma AmountLineNormalized(prefix: string, tok: string)
    requires prefix == SalaryPrefix || prefix == SpendPrefix || prefix == SavingsPrefix
    requires AmountToken(tok)
    ensures Normalize(prefix + " " + tok) == prefix + " " + tok
  {
    AmountTokenFacts(tok);
    NoUpperAppend(prefix + " ", tok);
    var text := prefix + " " + tok;
    assert text[0] == prefix[0];
    assert text[|text| - 1] == tok[|tok| - 1];
    NormalizedText(text);
  }

  /** `prefix + " " + tok` starts with `prefix`, and the amount after it is `tok`'s. */
  lemma AmountLine(prefix: string, tok: string, a: real)
    requires prefix != [] && prefix[0] != ' '
    requires AmountToken(tok) && ParseAmount(tok) == Some(a) && prefix[0] !in tok
    ensures prefix <= prefix + " " + tok
    ensures AmountAfter(prefix + " " + tok, prefix) == Some(a)
  {
    assert prefix + " " + tok == prefix + (" " + tok);
    PrefixOfAppend(prefix, " " + tok);
    AmountAfterToken(prefix, tok, a);
  }

  /** A message is interpreted through its normalized text. */
  lemma ParseVia(raw: string, text: string, c: Command)
    requires Interpret(text) == c
    requires Normalize(raw) == text
    ensures ParseMessage(raw) == c
  {
  }

  /** The branch lemmas: which command the `if`/`elif` chain yields on a normalized text. */
  lemma InterpretSalary(text: string, a: real)
    requires SalaryPrefix <= text && AmountAfter(text, SalaryPrefix) == Some(a)
    ensures Interpret(text) == CreditSalary(a)
  {
  }

  lemma InterpretSavings(text: string, a: real)
    requires !(SalaryPrefix <= text) && !(SpendPrefix <= text)
    requires SavingsPrefix <= text && AmountAfter(text, SavingsPrefix) == Some(a)
    ensures Interpret(text) == CreditSavings(a)
  {
  }

  lemma InterpretSpend(text: string, parts: seq<string>, a: real)
    requires !(SalaryPrefix <= text) && SpendPrefix <= text
    requires SpendParts(text) == parts && parts != [] && ParseAmount(parts[0]) == Some(a)
    ensures Interpret(text) == Spend(a, if |parts| > 1 then parts[1] else "")
  {
  }

  /** `salary credited <amount>` records a salary of that amount. */
  lemma SalaryRoundTrip(tok: string, a: real)
    requires AmountToken(tok) && ParseAmount(tok) == Some(a)
    ensures ParseMessage(SalaryPrefix + " " + tok) == CreditSalary(a)
  {
    var text := SalaryPrefix + " " + tok;
    AmountTokenFacts(tok);
    assert Interpret(text) == CreditSalary(a) by {
      AmountLine(SalaryPrefix, tok, a);
      InterpretSalary(text, a);
    }
    assert Normalize(text) == text by {
      AmountLineNormalized(SalaryPrefix, tok);
    }
    ParseVia(text, text, CreditSalary(a));
  }

  /** `credit savings <amount>` records savings of that amount. */
  lemma SavingsRoundTrip(tok: string, a: real)
    requires AmountToken(tok) && ParseAmount(tok) == Some(a)
    ensures ParseMessage(SavingsPrefix + " " + tok) == CreditSavings(a)
  {
    var text := SavingsPrefix + " " + tok;
    AmountTokenFacts(tok);
    assert Interpret(text) == CreditSavings(a) by {
      AmountLine(SavingsPrefix, tok, a);
      NotPrefixAt(SalaryPrefix, text, 0);
      NotPrefixAt(SpendPrefix, text, 0);
      InterpretSavings(text, a);
    }
    assert Normalize(text) == text by {
      AmountLineNormalized(SavingsPrefix, tok);
    }
    ParseVia(text, text, CreditSavings(a));
  }

  /** `spend <amount> <note>` is left as it is by `lower().strip()`. */
  lemma SpendLineNormalized(tok: string, note: string)
    requires AmountToken(tok)
    requires note != [] && !IsSpace(note[|note| - 1]) && NoUpper(note)
    ensures Normalize(SpendPrefix + " " + tok + " " + note) == SpendPrefix + " " + tok + " " + note
  {
    var text := SpendPrefix + " " + tok + " " + note;
    AmountTokenFacts(tok);
    NoUpperAppend(SpendPrefix + " ", tok);
    NoUpperAppend(SpendPrefix + " " + tok, " ");
    NoUpperAppend(SpendPrefix + " " + tok + " ", note);
    assert text[|text| - 1] == note[|note| - 1];
    NormalizedText(text);
  }

  /** After `p`, a gap without `p`'s first letter and a tail free of `p` are
      what `split(p)[1]` gives. */
  lemma SplitAfterFreeTail(gap: string, tail: string, p: string)
    requires |p| > 0 && p[0] !in gap
    requires FreeOf(tail, p)
    ensures SplitSecond(p + (gap + tail), p) == gap + tail
  {
    FreeOfAppend(gap, tail, p);
    SplitSecondWhole(p, gap + tail);
  }

  /** A spend line starts with `spend` only, and its parts are the amount and the note. */
  lemma SpendLineParts(tok: string, note: string)
    requires AmountToken(tok)
    requires note != [] && !IsSpace(note[0]) && !IsSpace(note[|note| - 1])
    requires FreeOf(note, SpendPrefix)
    ensures SpendPrefix <= SpendPrefix + " " + tok + " " + note
    ensures !(SalaryPrefix <= SpendPrefix + " " + tok + " " + note)
    ensures SpendParts(SpendPrefix + " " + tok + " " + note) == [tok, note]
  {
    var text := SpendPrefix + " " + tok + " " + note;
    var body := tok + " " + note;
    var x := " " + body;
    assert text == SpendPrefix + x;
    assert SpendPrefix <= text by {
      PrefixOfAppend(SpendPrefix, x);
    }
    assert !(SalaryPrefix <= text) by {
      NotPrefixAt(SalaryPrefix, text, 1);
    }
    assert SplitSecond(text, SpendPrefix) == x by {
      AmountTokenFacts(tok);
      var gap := " " + tok + " ";
      assert 's' !in gap;
      assert gap + note == x;
      SplitAfterFreeTail(gap, note, SpendPrefix);
    }
    assert Strip(x) == body by {
      AmountTokenFacts(tok);
      assert body[0] == tok[0];
      assert body[|body| - 1] == note[|note| - 1];
      StripLeadingBlank(body);
    }
    assert SplitOnce(body) == [tok, note] by {
      AmountTokenFacts(tok);
      SplitWordAndRest(tok, note);
    }
  }

  /** `spend <amount> <note>` records an expense with that note, when the note is
      already lower-case, stripped and free of the word `spend`. */
  lemma SpendRoundTrip(tok: string, a: real, note: string)
    requires AmountToken(tok) && ParseAmount(tok) == Some(a)
    requires note != [] && !IsSpace(note[0]) && !IsSpace(note[|note| - 1])
    requires NoUpper(note) && FreeOf(note, SpendPrefix)
    ensures ParseMessage(SpendPrefix + " " + tok + " " + note) == Spend(a, note)
  {
    var text := SpendPrefix + " " + tok + " " + note;
    assert Interpret(text) == Spend(a, note) by {
      SpendLineParts(tok, note);
      InterpretSpend(text, [tok, note], a);
    }
    assert Normalize(text) == text by {
      SpendLineNormalized(tok, note);
    }
    ParseVia(text, text, Spend(a, note));
  }

  /** `spend <amount>` starts with `spend` only, and its one part is the amount. */
  lemma SpendTokenParts(tok: string)
    requires AmountToken(tok)
    ensures SpendPrefix <= SpendPrefix + " " + tok
    ensures !(SalaryPrefix <= SpendPrefix + " " + tok)
    ensures SpendParts(SpendPrefix + " " + tok) == [tok]
  {
    var text := SpendPrefix + " " + tok;
    AmountTokenFacts(tok);
    assert text == SpendPrefix + (" " + tok);
    PrefixOfAppend(SpendPrefix, " " + tok);
    NotPrefixAt(SalaryPrefix, text, 1);
    SplitAfterPrefix(SpendPrefix, " " + tok);
    StripLeadingBlank(tok);
    SplitWord(tok);
  }

  /** `spend <amount>` alone records an expense with the empty note. */
  lemma SpendWithoutNote(tok: string, a: real)
    requires AmountToken(tok) && ParseAmount(tok) == Some(a)
    ensures ParseMessage(SpendPrefix + " " + tok) == Spend(a, "")
  {
    var text := SpendPrefix + " " + tok;
    assert Interpret(text) == Spend(a, "") by {
      SpendTokenParts(tok);
      InterpretSpend(text, [tok], a);
    }
    assert Normalize(text) == text by {
      AmountLineNormalized(SpendPrefix, tok);
    }
    ParseVia(text, text, Spend(a, ""));
  }

  /** No positivity check: a negative amount is recorded as it is. */
  lemma NegativeSpendRecorded(n: nat)
    ensures ParseMessage(SpendPrefix + " -" + DecimalString(n)) == Spend(-(n as real), "")
  {
    var tok := "-" + DecimalString(n);
    ParseSigned(n);
    assert SpendPrefix + " -" + DecimalString(n) == SpendPrefix + " " + tok;
    assert AmountToken(tok);
    SpendWithoutNote(tok, -(n as real));
  }

  /** `spend` alone leaves nothing to split, so `parts` is empty. */
  lemma BareSpendInterpreted()
    ensures Interpret(SpendPrefix) == Failed
  {
    assert SplitSecond(SpendPrefix, SpendPrefix) == [];
    assert SpendParts(SpendPrefix) == [];
    NotPrefixAt(SalaryPrefix, SpendPrefix, 1);
  }

  /** Trailing whitespace after a lower-case word is stripped. */
  lemma TrailingSpaceNormalized(w: string, ws: string)
    requires w != [] && NoUpper(w) && !IsSpace(w[0]) && !IsSpace(w[|w| - 1])
    requires AllSpace(ws)
    ensures Normalize(w + ws) == w
  {
    SpaceNoUpper(ws);
    NoUpperAppend(w, ws);
    NormalizeOfNoUpper(w + ws);
    StripTrailing(w, ws);
  }

  /** A bare `spend` has no amount: `parts` is empty and the generic error follows. */
  lemma BareSpendFails(ws: string)
    requires AllSpace(ws)
    ensures ParseMessage(SpendPrefix + ws) == Failed
  {
    BareSpendInterpreted();
    TrailingSpaceNormalized(SpendPrefix, ws);
    ParseVia(SpendPrefix + ws, SpendPrefix, Failed);
  }

  /** A bare `salary credited` has an empty amount, which `float` refuses. */
  lemma BareSalaryInvalid()
    ensures ParseMessage(SalaryPrefix) == InvalidAmount
  {
    BareSalaryInterpreted();
    BareSalaryNormalized();
    ParseVia(SalaryPrefix, SalaryPrefix, InvalidAmount);
  }

  /** `salary credited` is its own `lower().strip()`. */
  lemma BareSalaryNormalized()
    ensures Normalize(SalaryPrefix) == SalaryPrefix
  {
    var p := SalaryPrefix;
    assert NoUpper(p) && p != [] && !IsSpace(p[0]) && !IsSpace(p[|p| - 1]);
    NormalizedText(p);
  }

  /** `salary credited` leaves an empty string for `float`. */
  lemma BareSalaryInterpreted()
    ensures Interpret(SalaryPrefix) == InvalidAmount
  {
    assert SplitSecond(SalaryPrefix, SalaryPrefix) == [];
    assert AmountAfter(SalaryPrefix, SalaryPrefix) == None;
  }

  /** A first word after `spend` holding a character no `float()` literal has
      (a comma, say) draws the "Invalid Amount" reply. */
  lemma NonNumericSpendInvalid(raw: string)
    requires SpendPrefix <= Normalize(raw)
    requires SpendParts(Normalize(raw)) != []
    requires exists i :: 0 <= i < |SpendParts(Normalize(raw))[0]| && FloatRejects(SpendParts(Normalize(raw))[0][i])
    ensures ParseMessage(raw) == InvalidAmount
  {
    InvalidSpendAmount(Normalize(raw));
  }

  /** A spend line whose first part `float` refuses draws the "Invalid Amount" reply. */
  lemma InvalidSpendAmount(text: string)
    requires SpendPrefix <= text && SpendParts(text) != []
    requires ParseAmount(SpendParts(text)[0]) == None
    ensures Interpret(text) == InvalidAmount
  {
    PrefixesExclusive(text);
  }

  /** A spend command's note is the second part of the spend line, if any. */
  lemma SpendNote(text: string)
    requires Interpret(text).Spend?
    ensures SpendPrefix <= text
    ensures |SpendParts(text)| == 2 ==> Interpret(text).note == SpendParts(text)[1]
    ensures |SpendParts(text)| < 2 ==> Interpret(text).note == []
  {
    PrefixesExclusive(text);
  }

  /** The second part of a spend line never holds `spend`. */
  lemma SecondPartFreeOfSpend(text: string)
    requires SpendPrefix <= text && |SpendParts(text)| == 2
    ensures FreeOf(SpendParts(text)[1], SpendPrefix)
  {
    var seg := SplitSecond(text, SpendPrefix);
    forall j ensures !OccursAt(seg, SpendPrefix, j) {
      SegmentHasNoSep(text, SpendPrefix, j);
    }
    forall i ensures !OccursAt(SpendParts(text)[1], SpendPrefix, i) {
      StripKeepsAbsence(seg, SpendPrefix, SpendParts(text)[1], i);
    }
  }

  /** The note stops at the next `spend`: it never holds that word. */
  lemma NoteNeverHoldsSpend(raw: string)
    requires ParseMessage(raw).Spend?
    ensures FreeOf(ParseMessage(raw).note, SpendPrefix)
  {
    var text := Normalize(raw);
    SpendNote(text);
    if |SpendParts(text)| == 2 {
      SecondPartFreeOfSpend(text);
    }
  }

  /** The first test wins: `spend 50 statement` is an expense noted "statement". */
  lemma SpendBeforeStatement()
    ensures ParseMessage("spend 50 statement") == Spend(50.0, "statement")
  {
    FiftyIsAnAmount();
    StatementIsANote();
    assert SpendPrefix + " " + "50" + " " + "statement" == "spend 50 statement";
    SpendRoundTrip("50", 50.0, "statement");
  }

  /** `float("50") == 50.0` */
  lemma FiftyIsAnAmount()
    ensures AmountToken("50") && ParseAmount("50") == Some(50.0)
  {
    assert DecimalString(50) == "50";
    ParseDecimal(50);
  }

  /** `statement` is a note the spend line keeps as it is. */
  lemma StatementIsANote()
    ensures NoUpper("statement") && FreeOf("statement", SpendPrefix)
    ensures !IsSpace("statement"[0]) && !IsSpace("statement"[8])
  {
    forall i ensures !OccursAt("statement", SpendPrefix, i) {
      AbsentChar("statement", SpendPrefix, 1, i);
    }
  }

  // ----- Carrying out a command -----

  /** The chat replies, with the structured content they show. */
  datatype Reply =
    | SalaryCredited(amount: real)
    | ExpenseRecorded(amount: real, note: string)
    | SavingsCredited(amount: real)
    | TodayReply(day: DayReport)
    | MonthReply(month: MonthReport)
    | StatementReply
    | UnknownCommandReply
    | InvalidAmountReply
    | ErrorReply

  /** The reply to a command, given the table it was read from. */
  function ReplyFor(c: Command, rows: seq<Row>, userId: int, today: int, firstDay: int): Reply {
    match c
    case CreditSalary(a) => SalaryCredited(a)
    case Spend(a, note) => ExpenseRecorded(a, note)
    case CreditSavings(a) => SavingsCredited(a)
    case ShowToday => TodayReply(DayReportOf(rows, userId, today))
    case ShowMonth => MonthReply(MonthReportOf(rows, userId, firstDay))
    case ShowStatement => StatementReply
    case Unknown => UnknownCommandReply
    case InvalidAmount => InvalidAmountReply
    case Failed => ErrorReply
  }

  /** `handle_message`: a write command appends exactly one row; every other
      message (reports, unknown text and both error branches) leaves the table
      as it was. `now` is the insert time, `today` and `firstDay` are the days
      the reports read from the clock. */
  method HandleMessage(db: Database, userId: int, raw: string, now: Timestamp, today: int, firstDay: int)
    returns (reply: Reply)
    requires db.Valid()
    modifies db
    ensures db.Valid()
    ensures Writes(ParseMessage(raw)) ==>
              db.rows == old(db.rows) + [RowFor(ParseMessage(raw), old(db.nextId), userId, now)] &&
              db.nextId == old(db.nextId) + 1
    ensures !Writes(ParseMessage(raw)) ==> db.rows == old(db.rows) && db.nextId == old(db.nextId)
    ensures reply == ReplyFor(ParseMessage(raw), old(db.rows), userId, today, firstDay)
  {
    reply := Dispatch(db, userId, ParseMessage(raw), now, today, firstDay);
  }

  /** The action `handle_message` takes once the message is classified. */
  method Dispatch(db: Database, userId: int, c: Command, now: Timestamp, today: int, firstDay: int)
    returns (reply: Reply)
    requires db.Valid()
    modifies db
    ensures db.Valid()
    ensures Writes(c) ==>
              db.rows == old(db.rows) + [RowFor(c, old(db.nextId), userId, now)] &&
              db.nextId == old(db.nextId) + 1
    ensures !Writes(c) ==> db.rows == old(db.rows) && db.nextId == old(db.nextId)
    ensures reply == ReplyFor(c, old(db.rows), userId, today, firstDay)
  {
    match c
    case CreditSalary(a) =>
      db.AddTransaction(userId, Salary, a, now);
      reply := SalaryCredited(a);
    case Spend(a, note) =>
      db.AddTransaction(userId, Expense, a, now, note);
      reply := ExpenseRecorded(a, note);
    case CreditSavings(a) =>
      db.AddTransaction(userId, Savings, a, now);
      reply := SavingsCredited(a);
    case ShowToday =>
      var report := db.GetTodayReport(userId, today);
      reply := TodayReply(report);
    case ShowMonth =>
      var report := db.GetMonthReport(userId, firstDay);
      reply := MonthReply(report);
    case ShowStatement =>
      reply := StatementReply;
    case Unknown =>
      reply := UnknownCommandReply;
    case InvalidAmount =>
      reply := InvalidAmountReply;
    case Failed =>
      reply := ErrorReply;
  }
}
