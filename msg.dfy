/**
 * The message entity of internal/db/msg.go: the `Msg` record, its constructor `NewMsg`
 * and the palindrome check that derives `IsPalindrome` from the content.
 */
module Messages {
  import opened Strings

  /** A wall-clock instant. The model never inspects it: the caller supplies "now". */
  type Time = int

  /** The value of a `Msg`: what is encoded as JSON, decoded from a request body, or stored. */
  datatype MsgRecord = MsgRecord(id: string, content: string, isPalindrome: bool, modTime: Time)

  /**
   * Palindrome up to letter case: the characters at i and |s|-1-i agree once lower-cased, for
   * every i below |s|/2. White space and punctuation count like any other character.
   */
  ghost predicate Palindromic(s: string) {
    forall i | 0 <= i < |s| / 2 :: LowerChar(s[i]) == LowerChar(s[|s| - 1 - i])
  }

  /**
   * `isPalindrome`: lower-case the input, then compare it from both ends toward the middle,
   * stopping at the first mismatch.
   */
  method IsPalindrome(sequence: string) returns (isPalindrome: bool)
    ensures isPalindrome == Palindromic(sequence)
    ensures isPalindrome <==> ToLower(sequence) == Reverse(ToLower(sequence))
  {
    var lowered := ToLower(sequence);
    isPalindrome := true;
    var l := |lowered|;
    var i := 0;
    while i < l / 2
      invariant 0 <= i <= l / 2
      invariant isPalindrome
      invariant forall j | 0 <= j < i :: lowered[j] == lowered[l - 1 - j]
    {
      if lowered[i] != lowered[l - 1 - i] {
        Mismatch(sequence, i);
        isPalindrome := false;
        break;
      }
      i := i + 1;
    }
    if isPalindrome {
      LoweredPairsMatch(sequence);
    }
    LoweredEqualsReverse(sequence);
  }

  /** Mirrored positions of the lower-cased input that all agree make a palindrome. */
  lemma LoweredPairsMatch(s: string)
    requires forall j | 0 <= j < |s| / 2 :: ToLower(s)[j] == ToLower(s)[|s| - 1 - j]
    ensures Palindromic(s)
  {
    var t := ToLower(s);
    forall j | 0 <= j < |s| / 2 ensures LowerChar(s[j]) == LowerChar(s[|s| - 1 - j]) {
      assert t[j] == t[|s| - 1 - j];
    }
  }

  /** Being a palindrome is the same as: the lower-cased input equals its own reverse. */
  lemma LoweredEqualsReverse(s: string)
    ensures Palindromic(s) <==> ToLower(s) == Reverse(ToLower(s))
  {
    var t := ToLower(s);
    SelfReverse(t);
    if Palindromic(s) {
      forall i | 0 <= i < |t| / 2 ensures t[i] == t[|t| - 1 - i] {
        assert LowerChar(s[i]) == LowerChar(s[|s| - 1 - i]);
      }
    } else {
      var i :| 0 <= i < |s| / 2 && LowerChar(s[i]) != LowerChar(s[|s| - 1 - i]);
      assert t[i] != t[|t| - 1 - i];
    }
  }

  /** A sequence equals its reverse exactly when its mirrored positions agree. */
  lemma SelfReverse<T>(t: seq<T>)
    ensures (forall i | 0 <= i < |t| / 2 :: t[i] == t[|t| - 1 - i]) <==> t == Reverse(t)
  {
    var n, r := |t|, Reverse(t);
    if forall i | 0 <= i < n / 2 :: t[i] == t[n - 1 - i] {
      forall i | 0 <= i < n ensures t[i] == r[i] {
        var j := n - 1 - i;
        if n / 2 <= i && j < n / 2 {
          assert t[j] == t[n - 1 - j];
        }
      }
    }
    if t == r {
      forall i | 0 <= i < n / 2 ensures t[i] == t[n - 1 - i] {
        assert t[i] == r[i];
      }
    }
  }

  /** Reversing the input does not change the verdict. */
  lemma PalindromeUnderReversal(s: string)
    ensures Palindromic(Reverse(s)) == Palindromic(s)
  {
    var r, n := Reverse(s), |s|;
    if Palindromic(s) {
      forall i | 0 <= i < n / 2 ensures LowerChar(r[i]) == LowerChar(r[n - 1 - i]) {
        assert r[i] == s[n - 1 - i] && r[n - 1 - i] == s[i];
      }
    }
    if Palindromic(r) {
      forall i | 0 <= i < n / 2 ensures LowerChar(s[i]) == LowerChar(s[n - 1 - i]) {
        assert r[i] == s[n - 1 - i] && r[n - 1 - i] == s[i];
      }
    }
  }

  /** Changing the case of any letters does not change the verdict. */
  lemma CaseIgnored(s: string, t: string)
    requires |s| == |t|
    requires forall i | 0 <= i < |s| :: LowerChar(s[i]) == LowerChar(t[i])
    ensures Palindromic(s) == Palindromic(t)
  {
  }

  /** The empty string and every one-character string are palindromes. */
  lemma ShortIsPalindrome(s: string)
    requires |s| <= 1
    ensures Palindromic(s)
  {
  }

  /**
   * The comparison of `isPalindrome` as a recursive definition: the mirrored pairs from
   * position `i` to the middle agree up to letter case.
   */
  predicate PairsMatchFrom(s: string, i: nat)
    decreases |s| - i
  {
    i >= |s| / 2 || (LowerChar(s[i]) == LowerChar(s[|s| - 1 - i]) && PairsMatchFrom(s, i + 1))
  }

  /** Checking every pair from the front is the same as the palindrome verdict. */
  lemma PairsMatchDecides(s: string)
    ensures PairsMatchFrom(s, 0) <==> Palindromic(s)
  {
    PairsMatchFromAll(s, 0);
  }

  lemma {:induction false} PairsMatchFromAll(s: string, i: nat)
    ensures PairsMatchFrom(s, i) <==> forall j | i <= j < |s| / 2 :: LowerChar(s[j]) == LowerChar(s[|s| - 1 - j])
    decreases |s| - i
  {
    if i < |s| / 2 {
      PairsMatchFromAll(s, i + 1);
    }
  }

  /** The palindromes of the palindrome table: letter case is ignored, spaces are compared. */
  lemma KnownPalindromes()
    ensures Palindromic("kayak")
    ensures Palindromic("Step on no pets") && Palindromic("Live on time emit no evil")
    ensures Palindromic("613A316") && Palindromic(" 6 7 8   8 7 6 ")
  {
    Kayak();
    StepOnNoPets();
    LiveOnTime();
    DigitsAndLetter();
    SpacedDigits();
  }

  lemma Kayak()
    ensures Palindromic("kayak")
  {
    assert PairsMatchFrom("kayak", 0);
    PairsMatchDecides("kayak");
  }

  lemma StepOnNoPets()
    ensures Palindromic("Step on no pets")
  {
    assert PairsMatchFrom("Step on no pets", 0);
    PairsMatchDecides("Step on no pets");
  }

  lemma SpacedDigits()
    ensures Palindromic(" 6 7 8   8 7 6 ")
  {
    assert PairsMatchFrom(" 6 7 8   8 7 6 ", 0);
    PairsMatchDecides(" 6 7 8   8 7 6 ");
  }

  lemma DigitsAndLetter()
    ensures Palindromic("613A316")
  {
    assert PairsMatchFrom("613A316", 0);
    PairsMatchDecides("613A316");
  }

  lemma LiveOnTime()
    ensures Palindromic("Live on time emit no evil")
  {
    assert PairsMatchFrom("Live on time emit no evil", 6);
    assert PairsMatchFrom("Live on time emit no evil", 0);
    PairsMatchDecides("Live on time emit no evil");
  }

  /** The content of the retrieved message is a palindrome: slashes are compared like letters. */
  lemma SlashedOnes()
    ensures Palindromic("11/11/11")
  {
    assert PairsMatchFrom("11/11/11", 0);
    PairsMatchDecides("11/11/11");
  }

  /** The non-palindromes of the palindrome table: spaces and punctuation are not skipped. */
  lemma KnownNonPalindromes()
    ensures !Palindromic("12345321") && !Palindromic("potato")
    ensures !Palindromic("kjbhwro348hf9pni io  phof sdfhj   //  adsfa")
    ensures !Palindromic("===s===a==")
  {
    Mismatch("12345321", 3);
    Mismatch("potato", 0);
    Mismatch("kjbhwro348hf9pni io  phof sdfhj   //  adsfa", 0);
    Mismatch("===s===a==", 3);
  }

  /** The content of the message built by the constructor example is not a palindrome. */
  lemma SpacedMessage()
    ensures !Palindromic("a message")
  {
    Mismatch("a message", 0);
  }

  /** One mismatching pair of mirrored positions is enough to reject the input. */
  lemma Mismatch(s: string, i: nat)
    requires i < |s| / 2 && LowerChar(s[i]) != LowerChar(s[|s| - 1 - i])
    ensures !Palindromic(s)
  {
  }

  /** `*Msg`: a message on the heap. The in-memory store keeps these and updates them in place. */
  class Msg {
    var id: string
    var content: string
    var isPalindrome: bool
    var modTime: Time

    /** `NewMsg`: keeps id and content as given, derives the palindrome flag, stamps the time. */
    constructor NewMsg(id: string, content: string, now: Time)
      ensures this.id == id && this.content == content
      ensures this.isPalindrome == Palindromic(content)
      ensures this.modTime == now
    {
      var p := IsPalindrome(content);
      this.id := id;
      this.content := content;
      this.isPalindrome := p;
      this.modTime := now;
    }

    /** The current field values. */
    function Record(): MsgRecord
      reads this
    {
      MsgRecord(id, content, isPalindrome, modTime)
    }
  }

  /** The current values of a slice of `*Msg`, in order: what marshalling the slice encodes. */
  function Snapshots(ms: seq<Msg>): (r: seq<MsgRecord>)
    reads set i | 0 <= i < |ms| :: ms[i]
    ensures |r| == |ms|
    ensures forall i | 0 <= i < |ms| :: r[i] == ms[i].Record()
  {
    if ms == [] then [] else [ms[0].Record()] + Snapshots(ms[1..])
  }
}
