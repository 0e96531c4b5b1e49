TestResult.DisplayName,TestResult.Outcome,TestResult.Duration,TestResult.ResourceCount,RandomSeed
Workflow.QuickStatusChange (correctness),Passed,00:00:00.6590019,964866,1
Workflow.QuickStatusChange (well-formedness),Passed,00:00:00.2446119,109044,1
