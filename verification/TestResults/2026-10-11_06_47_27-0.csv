TestResult.DisplayName,TestResult.Outcome,TestResult.Duration,TestResult.ResourceCount,RandomSeed
Workflow.QuickStatusChange (correctness),Passed,00:00:00.9805482,1772312,3
Workflow.QuickStatusChange (well-formedness),Passed,00:00:00.2842081,107198,3
