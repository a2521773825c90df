/**
 * The prompt template of `POST` in src/app/api/analyze/route.ts: fixed text
 * around the job description and the extracted resume text, both embedded
 * verbatim.
 */
module Prompt {

  /** The template text up to the job description, indentation included. */
  const PromptHead: string :=
    "\n      You are an expert Indian Technical Recruiter. Analyze this resume against the Job Description (JD).\n      \n      JD: "

  /** The template text between the job description and the resume. */
  const PromptMiddle: string := "\n      Resume: "

  /** The template text after the resume: the requested JSON shape. */
  const PromptTail: string :=
    "\n\n      Provide the response strictly in JSON format:\n      {\n"
    + "        \"score\": (0-100),\n"
    + "        \"missing_keywords\": [\"tech skill\", \"soft skill\"],\n"
    + "        \"indian_market_tips\": [\"specific advice for Indian market like notice period, CGPA, etc.\"],\n"
    + "        \"verdict\": \"Strong Match\" | \"Moderate Match\" | \"Weak Match\"\n"
    + "      }\n    "

  function BuildPrompt(jd: string, resume: string): string
  {
    PromptHead + jd + PromptMiddle + resume + PromptTail
  }

  /** Both inputs sit verbatim at fixed offsets of the prompt. */
  lemma PromptEmbedsInputs(jd: string, resume: string)
    ensures var p, h, m := BuildPrompt(jd, resume), |PromptHead|, |PromptMiddle|;
      && |p| == h + |jd| + m + |resume| + |PromptTail|
      && p[..h] == PromptHead
      && p[h..h + |jd|] == jd
      && p[h + |jd|..h + |jd| + m] == PromptMiddle
      && p[h + |jd| + m..|p| - |PromptTail|] == resume
      && p[|p| - |PromptTail|..] == PromptTail
  {
  }

  /** Given the length of the job description, the prompt determines both inputs. */
  lemma PromptInjective(jd1: string, resume1: string, jd2: string, resume2: string)
    requires |jd1| == |jd2|
    ensures BuildPrompt(jd1, resume1) == BuildPrompt(jd2, resume2) <==> jd1 == jd2 && resume1 == resume2
  {
    PromptEmbedsInputs(jd1, resume1);
    PromptEmbedsInputs(jd2, resume2);
  }
}
