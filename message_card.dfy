/**
 * The display helpers of src/components/MessageCard.tsx: the card's title,
 * its relative time and its Parsed/Pending label.
 */
module MessageCard {
  import opened Text
  import opened Ledger
  import MessageItem

  const MaxTitleLength: nat := 30

  /** `words.length > 30 ? words.substring(0, 30) + '...' : words`. */
  function Shorten(words: string): (r: string)
    ensures |r| <= MaxTitleLength + 3
    ensures |words| <= MaxTitleLength ==> r == words
    ensures |words| > MaxTitleLength ==>
      |r| == MaxTitleLength + 3 && r[..MaxTitleLength] == words[..MaxTitleLength]
      && r[MaxTitleLength..] == "..."
  {
    if |words| > MaxTitleLength then words[..MaxTitleLength] + "..." else words
  }

  /**
   * `extractTitle`: the fixed title of the first keyword the lower-cased
   * body contains, in the order swiggy, amazon, cafe, credited, otp;
   * otherwise the body's first four space-separated words, shortened.
   * The sender is not looked at.
   */
  function ExtractTitle(body: string, sender: string): (title: string)
    ensures var lower := ToLower(body);
      (Contains(lower, "swiggy") ==> title == "Paid to Swiggy")
      && (!Contains(lower, "swiggy") && Contains(lower, "amazon") ==> title == "Debit at AMAZON")
      && (!Contains(lower, "swiggy") && !Contains(lower, "amazon") && Contains(lower, "cafe")
          ==> title == "You spent at CAFE")
      && ((!Contains(lower, "swiggy") && !Contains(lower, "amazon") && !Contains(lower, "cafe")
           && Contains(lower, "credited")) ==> title == "Amount credited")
      && ((!Contains(lower, "swiggy") && !Contains(lower, "amazon") && !Contains(lower, "cafe")
           && !Contains(lower, "credited") && Contains(lower, "otp")) ==> title == "OTP verification")
    ensures !HasKeyword(ToLower(body)) ==> title == Shorten(PrefixBeforeNth(body, ' ', 4))
    ensures |title| <= MaxTitleLength + 3
  {
    var lowerBody := ToLower(body);
    if Contains(lowerBody, "swiggy") then "Paid to Swiggy"
    else if Contains(lowerBody, "amazon") then "Debit at AMAZON"
    else if Contains(lowerBody, "cafe") then "You spent at CAFE"
    else if Contains(lowerBody, "credited") then "Amount credited"
    else if Contains(lowerBody, "otp") then "OTP verification"
    else
      var words := Join(Take(Split(body, ' '), 4), ' ');
      JoinTakeSplit(body, ' ', 4);
      Shorten(words)
  }

  /** One of the five keywords occurs. */
  predicate HasKeyword(lower: string) {
    Contains(lower, "swiggy") || Contains(lower, "amazon") || Contains(lower, "cafe")
    || Contains(lower, "credited") || Contains(lower, "otp")
  }

  /** The title is a function of the body alone. */
  lemma TitleIgnoresSender(body: string, s1: string, s2: string)
    ensures ExtractTitle(body, s1) == ExtractTitle(body, s2)
  {
  }

  /** `formatTime`: the card's own copy of the minute, hour and day buckets. */
  function FormatTime(now: int, timestamp: int): (r: string)
    ensures |r| >= 6 && r[|r| - 4..] == " ago" && r[|r| - 5] in "mhd"
  {
    var diffInMinutes := (now - timestamp) / 60000;
    if diffInMinutes < 60 then IntToString(diffInMinutes) + "m ago"
    else if diffInMinutes < 1440 then IntToString(diffInMinutes / 60) + "h ago"
    else IntToString(diffInMinutes / 1440) + "d ago"
  }

  /** The card and the list item show the same relative time for every timestamp. */
  lemma FormatTimeAgrees(now: int, timestamp: int)
    ensures FormatTime(now, timestamp) == MessageItem.FormatTimestamp(now, timestamp)
  {
  }

  /** The card's label and color: `isParsed ? 'Parsed' : 'Pending'`. */
  function StatusLabel(message: SMSMessage): (b: MessageItem.Badge)
    ensures b.text == "Parsed" <==> message.uploaded
    ensures b.text == "Pending" <==> !message.uploaded
  {
    var isParsed := message.uploaded;
    MessageItem.Badge(if isParsed then "Parsed" else "Pending", if isParsed then "#4CAF50" else "#FF9800")
  }

  /** The card's label and color are the list item's badge. */
  lemma StatusLabelAgrees(message: SMSMessage)
    ensures StatusLabel(message) == MessageItem.GetStatusBadge(message.uploaded)
  {
  }
}
