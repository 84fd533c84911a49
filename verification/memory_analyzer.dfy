/**
  The memory analyzer's keyword fallback: whether a conversation belongs in
  long-term memory and how important it is, judged by the importance
  keywords it contains. The language-model branch is a parameter: its reply.
 */
module MemoryAnalyzer {
  import opened Wrappers
  import opened Text
  import opened LlmReply

  /** `IMPORTANCE_KEYWORDS`, in declaration order. */
  const ImportanceKeywords: seq<string> := [
    "永远", "一直", "经常", "每天", "每周", "每月", "每年",
    "重要", "关键", "必须", "一定", "肯定", "绝对",
    "喜欢", "讨厌", "爱", "恨", "开心", "难过", "生气",
    "害怕", "担心", "期待", "失望", "满意", "不满",
    "朋友", "家人", "亲人", "爱人", "同事", "同学",
    "老师", "学生", "领导", "下属",
    "生日", "纪念日", "节日", "假期", "旅行", "工作",
    "学习", "考试", "比赛", "会议", "约会",
    "家", "学校", "公司", "医院", "餐厅", "商场",
    "公园", "景点", "城市", "国家",
    "礼物", "纪念品", "收藏品", "贵重物品", "重要文件",
    "生病", "受伤", "康复", "毕业", "结婚", "离职",
    "升职", "加薪", "获奖", "成功", "失败"
  ]

  /** `MemoryAnalysis`. */
  datatype MemoryAnalysis = MemoryAnalysis(
    shouldStoreInLtm: bool,
    reason: string,
    importanceScore: real,
    keyPoints: seq<string>)

  /** The fields a decoded reply may carry; an absent field is `None`. */
  datatype ParsedAnalysis = ParsedAnalysis(
    shouldStoreInLtm: Option<bool>,
    reason: Option<string>,
    importanceScore: Option<real>,
    keyPoints: Option<seq<string>>)

  /** A `MemoryAnalyzer`: the keyword list it was built with (`self.importance_keywords`). */
  datatype Analyzer = Analyzer(importanceKeywords: seq<string>)

  /** `MemoryAnalyzer()`: the language model is a parameter of each call; the keywords are `IMPORTANCE_KEYWORDS`. */
  function NewAnalyzer(): Analyzer
  {
    Analyzer(ImportanceKeywords)
  }

  /** Some of the analyzer's keywords occurs in the conversation. */
  predicate HasImportanceKeyword(an: Analyzer, conversation: string)
  {
    exists k :: 0 <= k < |an.importanceKeywords| && Contains(conversation, an.importanceKeywords[k])
  }

  /** How many of the keywords occur. */
  function KeywordCount(an: Analyzer, conversation: string): nat
  {
    CountContained(conversation, an.importanceKeywords)
  }

  /**
    `_simple_analysis`: store in long-term memory iff some keyword occurs;
    importance is a fifth per keyword found, capped at 1; the conversation
    itself is the one key point when storing.
   */
  function SimpleAnalysis(an: Analyzer, conversation: string): (a: MemoryAnalysis)
    ensures a.shouldStoreInLtm <==> HasImportanceKeyword(an, conversation)
    ensures 0.0 <= a.importanceScore <= 1.0
    ensures a.importanceScore > 0.0 <==> a.shouldStoreInLtm
    ensures KeywordCount(an, conversation) >= 5 ==> a.importanceScore == 1.0
    ensures KeywordCount(an, conversation) < 5 ==> a.importanceScore == 0.2 * KeywordCount(an, conversation) as real
    ensures a.keyPoints == (if a.shouldStoreInLtm then [conversation] else [])
    ensures a.reason == (if a.shouldStoreInLtm then "包含重要关键词" else "未检测到重要信息")
  {
    var store := HasImportanceKeyword(an, conversation);
    var score := 0.2 * KeywordCount(an, conversation) as real;
    MemoryAnalysis(
      store,
      if store then "包含重要关键词" else "未检测到重要信息",
      if score < 1.0 then score else 1.0,
      if store then [conversation] else [])
  }

  /** A keyword found in a text is still found once more text follows it. */
  lemma ContainsExtend(s: string, more: string, w: string)
    requires Contains(s, w)
    ensures Contains(s + more, w)
  {
    ContainsIffOccurs(s, w);
    var i :| OccursAt(s, w, i);
    assert (s + more)[i..i + |w|] == s[i..i + |w|];
    assert OccursAt(s + more, w, i);
    ContainsIffOccurs(s + more, w);
  }

  lemma {:induction false} CountExtend(s: string, more: string, words: seq<string>)
    ensures CountContained(s, words) <= CountContained(s + more, words)
    decreases |words|
  {
    if |words| > 0 {
      CountExtend(s, more, words[1..]);
      if Contains(s, words[0]) {
        ContainsExtend(s, more, words[0]);
      }
    }
  }

  /** Saying more never makes a conversation less important. */
  lemma ImportanceGrows(an: Analyzer, conversation: string, more: string)
    ensures SimpleAnalysis(an, conversation).importanceScore <= SimpleAnalysis(an, conversation + more).importanceScore
    ensures SimpleAnalysis(an, conversation).shouldStoreInLtm ==> SimpleAnalysis(an, conversation + more).shouldStoreInLtm
  {
    CountExtend(conversation, more, an.importanceKeywords);
  }

  /**
    `analyze_conversation`: a missing or empty reply, or content that is not
    JSON, falls back to the keyword analysis; decoded fields are taken with
    the defaults `False`, `''`, `0.0` and `[]`.
   */
  function AnalyzeConversation(an: Analyzer, conversation: string, reply: Reply<ParsedAnalysis>): (a: MemoryAnalysis)
    ensures FallsBack(reply) ==> a == SimpleAnalysis(an, conversation)
    ensures !FallsBack(reply) ==>
      && a.shouldStoreInLtm == reply.parsed.value.shouldStoreInLtm.GetOr(false)
      && a.reason == reply.parsed.value.reason.GetOr("")
      && a.importanceScore == reply.parsed.value.importanceScore.GetOr(0.0)
      && a.keyPoints == reply.parsed.value.keyPoints.GetOr([])
  {
    match reply
    case Answer(Some(p)) =>
      MemoryAnalysis(p.shouldStoreInLtm.GetOr(false), p.reason.GetOr(""),
        p.importanceScore.GetOr(0.0), p.keyPoints.GetOr([]))
    case _ => SimpleAnalysis(an, conversation)
  }
}
